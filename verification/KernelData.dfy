/**
 The kernel's data as os_core.c lays it out: tables of task and event control blocks, two
 linked lists threaded through the task table, the priority table and the two-level bitmaps.
 A pointer to a control block is its index in the table, or None for a null pointer. The
 consistency of the data and its reading as a KernelSpec.State are defined here, with the
 lemmas about single updates that the services in Kernel.dfy are made of.
 */
module KernelData {
  import opened Basics
  import opened Words
  import opened KernelSpec
  import PrioMap

  type Ptr = Option<nat>

  datatype EventType = TypeUnused | TypeMbox | TypeQ | TypeSem | TypeMutex | TypeFlag

  /** OS_Q: a circular store of messages; OSQOut is the index of the next one to extract. */
  datatype OS_Q = OS_Q(store: seq<Msg>, OSQOut: nat, OSQEntries: nat)

  datatype OS_EVENT = OS_EVENT(
    OSEventType: EventType,
    OSEventPtr: Msg,                 // the message in a mailbox
    OSEventQ: OS_Q,                  // the queue OSEventPtr leads to when the event is a queue
    OSEventCnt: nat,
    OSEventGrp: nat,
    OSEventTbl: seq<nat>
  )

  datatype OS_TCB = OS_TCB(
    OSTCBNext: Ptr,
    OSTCBPrev: Ptr,
    OSTCBEventPtr: Ptr,
    OSTCBEventMultiPtr: Option<seq<Ptr>>,
    OSTCBMsg: Msg,
    OSTCBDly: nat,
    OSTCBStat: set<Flag>,
    OSTCBStatPend: PendStat,
    OSTCBPrio: nat,
    OSTCBX: nat,
    OSTCBY: nat,
    OSTCBBitX: nat,
    OSTCBBitY: nat
  )

  /** The heads of the two lists of TCBs, and the lists that the links spell out from there. */
  datatype Lists = Lists(head: Ptr, freeHead: Ptr, taskCtr: nat, active: seq<nat>, free: seq<nat>)

  /** The scheduler's own variables. */
  datatype SchedVars = SchedVars(
    running: bool, intNesting: nat, lockNesting: nat, stepState: TickStep, prioCur: nat, cur: Ptr, ctxSwCtr: nat)

  /** The kernel's global variables. */
  datatype Data = Data(
    lowest: nat,
    rdyGrp: nat,
    rdyTbl: seq<nat>,
    tcbs: seq<OS_TCB>,
    prioTbl: seq<Ptr>,
    events: seq<OS_EVENT>,
    lists: Lists,
    sched: SchedVars
  )

  // ---------------------------------------------------------------- consistency

  ghost function Range(n: nat): seq<nat> {
    if n == 0 then [] else Range(n - 1) + [n - 1]
  }

  /** The TCBs linked by OSTCBNext from `p` are those of the list from position `k` on. */
  ghost predicate Forward(tcbs: seq<OS_TCB>, p: Ptr, list: seq<nat>, k: nat)
    decreases |list| - k
  {
    if k >= |list| then p == None
    else p == Some(list[k]) && list[k] < |tcbs| && Forward(tcbs, tcbs[list[k]].OSTCBNext, list, k + 1)
  }

  /** From position `k` on, every TCB of the list points back to the one before it. */
  ghost predicate Backward(tcbs: seq<OS_TCB>, prev: Ptr, list: seq<nat>, k: nat)
    decreases |list| - k
  {
    k >= |list| || (list[k] < |tcbs| && tcbs[list[k]].OSTCBPrev == prev && Backward(tcbs, Some(list[k]), list, k + 1))
  }

  /** The links spell out two lists that share out the table of TCBs. */
  ghost predicate ListsOk(tcbs: seq<OS_TCB>, l: Lists) {
    && multiset(l.active) + multiset(l.free) == multiset(Range(|tcbs|))
    && Forward(tcbs, l.head, l.active, 0)
    && Backward(tcbs, None, l.active, 0)
    && Forward(tcbs, l.freeHead, l.free, 0)
    && l.taskCtr == |l.active|
  }

  /** The precomputed bit positions belong to the priority. */
  ghost predicate BitsOk(lowest: nat, t: OS_TCB) {
    && t.OSTCBPrio <= lowest
    && t.OSTCBY == PrioMap.RowOf(lowest, t.OSTCBPrio) && t.OSTCBX == PrioMap.ColOf(lowest, t.OSTCBPrio)
    && t.OSTCBBitY == Bit(t.OSTCBY) && t.OSTCBBitX == Bit(t.OSTCBX)
  }

  /** The priority table finds the first `n` TCBs of the list. */
  ghost predicate Found(lowest: nat, tcbs: seq<OS_TCB>, prioTbl: seq<Ptr>, list: seq<nat>, n: nat)
    requires n <= |list|
  {
    n == 0 ||
    (Found(lowest, tcbs, prioTbl, list, n - 1)
     && list[n - 1] < |tcbs| && BitsOk(lowest, tcbs[list[n - 1]])
     && tcbs[list[n - 1]].OSTCBPrio < |prioTbl| && prioTbl[tcbs[list[n - 1]].OSTCBPrio] == Some(list[n - 1]))
  }

  /** The first `n` entries of the priority table lead to TCBs of their priority in the list, or nowhere. */
  ghost predicate LeadToTasks(tcbs: seq<OS_TCB>, prioTbl: seq<Ptr>, list: seq<nat>, n: nat)
    requires n <= |prioTbl|
  {
    n == 0 ||
    (LeadToTasks(tcbs, prioTbl, list, n - 1)
     && (prioTbl[n - 1].Some? ==>
           prioTbl[n - 1].value in list && prioTbl[n - 1].value < |tcbs|
           && tcbs[prioTbl[n - 1].value].OSTCBPrio == n - 1))
  }

  /** The last task of the list is the idle task. */
  ghost predicate IdleIsLast(lowest: nat, tcbs: seq<OS_TCB>, list: seq<nat>) {
    list == [] || (list[|list| - 1] < |tcbs| && tcbs[list[|list| - 1]].OSTCBPrio == lowest)
  }

  ghost predicate TasksOk(lowest: nat, tcbs: seq<OS_TCB>, prioTbl: seq<Ptr>, active: seq<nat>) {
    && |prioTbl| == lowest + 1
    && Found(lowest, tcbs, prioTbl, active, |active|)
    && LeadToTasks(tcbs, prioTbl, active, |prioTbl|)
    && IdleIsLast(lowest, tcbs, active)
  }

  ghost predicate EventPtrOk(n: nat, p: Ptr) { p.Some? ==> p.value < n }

  /** From position `k` on, an array of event pointers that ends with its first null pointer. */
  ghost predicate EventListFrom(n: nat, s: seq<Ptr>, k: nat)
    decreases |s| - k
  {
    k < |s| && if s[k].None? then |s| == k + 1 else s[k].value < n && EventListFrom(n, s, k + 1)
  }

  ghost predicate EventList(n: nat, s: seq<Ptr>) { EventListFrom(n, s, 0) }

  /** The event pointers of a TCB lead into a table of `n` events. */
  ghost predicate PointersOk(n: nat, t: OS_TCB) {
    && EventPtrOk(n, t.OSTCBEventPtr)
    && (t.OSTCBEventMultiPtr.Some? ==> EventList(n, t.OSTCBEventMultiPtr.value))
  }

  ghost predicate AllPointersOk(n: nat, tcbs: seq<OS_TCB>, k: nat)
    requires k <= |tcbs|
  {
    k == 0 || (AllPointersOk(n, tcbs, k - 1) && PointersOk(n, tcbs[k - 1]))
  }

  ghost predicate EventOk(lowest: nat, ev: OS_EVENT) {
    PrioMap.Valid(lowest, ev.OSEventGrp, ev.OSEventTbl)
  }

  ghost predicate WaitListsOk(lowest: nat, events: seq<OS_EVENT>, k: nat)
    requires k <= |events|
  {
    k == 0 || (WaitListsOk(lowest, events, k - 1) && EventOk(lowest, events[k - 1]))
  }

  ghost predicate CurrentOk(s: SchedVars, prioTbl: seq<Ptr>) {
    s.running ==> s.cur.Some? && s.prioCur < |prioTbl| && prioTbl[s.prioCur] == s.cur
  }

  ghost predicate Valid(d: Data) {
    && ListsOk(d.tcbs, d.lists)
    && TasksOk(d.lowest, d.tcbs, d.prioTbl, d.lists.active)
    && AllPointersOk(|d.events|, d.tcbs, |d.tcbs|)
    && PrioMap.Valid(d.lowest, d.rdyGrp, d.rdyTbl)
    && WaitListsOk(d.lowest, d.events, |d.events|)
    && CurrentOk(d.sched, d.prioTbl)
  }

  // What the recursive predicates say about one element.

  lemma {:induction false} InRange(n: nat, i: nat)
    ensures multiset(Range(n))[i] == if i < n then 1 else 0
  {
    if n > 0 { InRange(n - 1, i); }
  }

  lemma InList(n: nat, a: seq<nat>, b: seq<nat>, i: nat)
    requires multiset(a) + multiset(b) == multiset(Range(n))
    ensures i in a ==> i < n && i !in b && multiset(a)[i] == 1
    ensures i in b ==> i < n && i !in a && multiset(b)[i] == 1
    ensures i < n ==> i in a || i in b
  {
    InRange(n, i);
    assert i in a <==> multiset(a)[i] > 0;
    assert i in b <==> multiset(b)[i] > 0;
    assert (multiset(a) + multiset(b))[i] == multiset(a)[i] + multiset(b)[i];
  }

  lemma {:induction false} FoundAt(lowest: nat, tcbs: seq<OS_TCB>, prioTbl: seq<Ptr>, list: seq<nat>, n: nat, i: nat)
    requires n <= |list| && Found(lowest, tcbs, prioTbl, list, n) && i in list[..n]
    ensures i < |tcbs| && BitsOk(lowest, tcbs[i])
    ensures tcbs[i].OSTCBPrio < |prioTbl| && prioTbl[tcbs[i].OSTCBPrio] == Some(i)
  {
    if i != list[n - 1] {
      assert list[..n] == list[..n - 1] + [list[n - 1]];
      FoundAt(lowest, tcbs, prioTbl, list, n - 1, i);
    }
  }

  lemma {:induction false} LeadsTo(tcbs: seq<OS_TCB>, prioTbl: seq<Ptr>, list: seq<nat>, n: nat, p: nat)
    requires n <= |prioTbl| && LeadToTasks(tcbs, prioTbl, list, n) && p < n && prioTbl[p].Some?
    ensures prioTbl[p].value in list && prioTbl[p].value < |tcbs| && tcbs[prioTbl[p].value].OSTCBPrio == p
  {
    if p < n - 1 { LeadsTo(tcbs, prioTbl, list, n - 1, p); }
  }

  lemma {:induction false} PointersAt(n: nat, tcbs: seq<OS_TCB>, k: nat, i: nat)
    requires i < k <= |tcbs| && AllPointersOk(n, tcbs, k)
    ensures PointersOk(n, tcbs[i])
  {
    if i < k - 1 { PointersAt(n, tcbs, k - 1, i); }
  }

  lemma {:induction false} WaitListAt(lowest: nat, events: seq<OS_EVENT>, k: nat, e: nat)
    requires e < k <= |events| && WaitListsOk(lowest, events, k)
    ensures EventOk(lowest, events[e])
  {
    if e < k - 1 { WaitListAt(lowest, events, k - 1, e); }
  }

  // ---------------------------------------------------------------- meaning

  /** The events from position `k` on, before the null pointer. */
  ghost function IdsFrom(s: seq<Ptr>, k: nat): seq<EventId>
    decreases |s| - k
  {
    if k >= |s| || s[k].None? then [] else [s[k].value] + IdsFrom(s, k + 1)
  }

  ghost function Ids(s: seq<Ptr>): seq<EventId> { IdsFrom(s, 0) }

  ghost function TaskOf(t: OS_TCB): Task {
    Task(t.OSTCBDly, t.OSTCBStat, t.OSTCBStatPend, t.OSTCBEventPtr,
         match t.OSTCBEventMultiPtr { case None => None case Some(s) => Some(Ids(s)) },
         t.OSTCBMsg)
  }

  ghost function TasksOf(tcbs: seq<OS_TCB>, prioTbl: seq<Ptr>): map<Prio, Task> {
    map p | 0 <= p < |prioTbl| && prioTbl[p].Some? && prioTbl[p].value < |tcbs| :: TaskOf(tcbs[prioTbl[p].value])
  }

  ghost function WaitersOf(lowest: nat, events: seq<OS_EVENT>): (w: seq<set<Prio>>)
    ensures |w| == |events|
    ensures forall e | 0 <= e < |events| :: w[e] == PrioMap.Members(lowest, events[e].OSEventTbl)
  {
    seq(|events|, e requires 0 <= e < |events| => PrioMap.Members(lowest, events[e].OSEventTbl))
  }

  ghost function Abs(d: Data): State {
    State(d.lowest, d.sched.running, d.sched.intNesting, d.sched.lockNesting, d.sched.stepState,
          TasksOf(d.tcbs, d.prioTbl), PrioMap.Members(d.lowest, d.rdyTbl), WaitersOf(d.lowest, d.events),
          d.sched.prioCur, d.sched.ctxSwCtr)
  }

  // ---------------------------------------------------------------- single updates

  /** Two TCBs with the same links, priority and bit positions. */
  ghost predicate SamePlace(t: OS_TCB, t': OS_TCB) {
    && t'.OSTCBNext == t.OSTCBNext && t'.OSTCBPrev == t.OSTCBPrev && t'.OSTCBPrio == t.OSTCBPrio
    && t'.OSTCBX == t.OSTCBX && t'.OSTCBY == t.OSTCBY && t'.OSTCBBitX == t.OSTCBBitX && t'.OSTCBBitY == t.OSTCBBitY
  }

  lemma {:induction false} SameForward(tcbs: seq<OS_TCB>, i: nat, t: OS_TCB, p: Ptr, list: seq<nat>, k: nat)
    requires Forward(tcbs, p, list, k) && i < |tcbs| && tcbs[i].OSTCBNext == t.OSTCBNext
    ensures Forward(tcbs[i := t], p, list, k)
    decreases |list| - k
  {
    if k < |list| { SameForward(tcbs, i, t, tcbs[list[k]].OSTCBNext, list, k + 1); }
  }

  lemma {:induction false} SameBackward(tcbs: seq<OS_TCB>, i: nat, t: OS_TCB, prev: Ptr, list: seq<nat>, k: nat)
    requires Backward(tcbs, prev, list, k) && i < |tcbs| && tcbs[i].OSTCBPrev == t.OSTCBPrev
    ensures Backward(tcbs[i := t], prev, list, k)
    decreases |list| - k
  {
    if k < |list| { SameBackward(tcbs, i, t, Some(list[k]), list, k + 1); }
  }

  lemma {:induction false} SameFound(lowest: nat, tcbs: seq<OS_TCB>, prioTbl: seq<Ptr>, list: seq<nat>, n: nat,
                                     i: nat, t: OS_TCB)
    requires n <= |list| && Found(lowest, tcbs, prioTbl, list, n) && i < |tcbs| && SamePlace(tcbs[i], t)
    ensures Found(lowest, tcbs[i := t], prioTbl, list, n)
  {
    if n > 0 { SameFound(lowest, tcbs, prioTbl, list, n - 1, i, t); }
  }

  lemma {:induction false} SameLeads(tcbs: seq<OS_TCB>, prioTbl: seq<Ptr>, list: seq<nat>, n: nat, i: nat, t: OS_TCB)
    requires n <= |prioTbl| && LeadToTasks(tcbs, prioTbl, list, n) && i < |tcbs| && SamePlace(tcbs[i], t)
    ensures LeadToTasks(tcbs[i := t], prioTbl, list, n)
  {
    if n > 0 { SameLeads(tcbs, prioTbl, list, n - 1, i, t); }
  }

  lemma {:induction false} SamePointers(n: nat, tcbs: seq<OS_TCB>, k: nat, i: nat, t: OS_TCB)
    requires k <= |tcbs| && AllPointersOk(n, tcbs, k) && i < |tcbs| && PointersOk(n, t)
    ensures AllPointersOk(n, tcbs[i := t], k)
  {
    if k > 0 { SamePointers(n, tcbs, k - 1, i, t); }
  }

  lemma FoundInAll(d: Data, i: nat)
    requires Found(d.lowest, d.tcbs, d.prioTbl, d.lists.active, |d.lists.active|) && i in d.lists.active
    ensures i < |d.tcbs| && BitsOk(d.lowest, d.tcbs[i])
    ensures d.tcbs[i].OSTCBPrio < |d.prioTbl| && d.prioTbl[d.tcbs[i].OSTCBPrio] == Some(i)
  {
    assert d.lists.active[..|d.lists.active|] == d.lists.active;
    FoundAt(d.lowest, d.tcbs, d.prioTbl, d.lists.active, |d.lists.active|, i);
  }

  lemma UpdateTcbTasks(d: Data, i: nat, t: OS_TCB)
    requires TasksOk(d.lowest, d.tcbs, d.prioTbl, d.lists.active) && i in d.lists.active && i < |d.tcbs|
    requires SamePlace(d.tcbs[i], t)
    ensures TasksOk(d.lowest, d.tcbs[i := t], d.prioTbl, d.lists.active)
    ensures TasksOf(d.tcbs[i := t], d.prioTbl) == TasksOf(d.tcbs, d.prioTbl)[t.OSTCBPrio := TaskOf(t)]
    ensures t.OSTCBPrio in TasksOf(d.tcbs, d.prioTbl)
  {
    SameFound(d.lowest, d.tcbs, d.prioTbl, d.lists.active, |d.lists.active|, i, t);
    SameLeads(d.tcbs, d.prioTbl, d.lists.active, |d.prioTbl|, i, t);
    FoundInAll(d, i);
    UpdateTasksOf(d, i, t);
  }

  lemma UpdateTasksOf(d: Data, i: nat, t: OS_TCB)
    requires LeadToTasks(d.tcbs, d.prioTbl, d.lists.active, |d.prioTbl|) && i < |d.tcbs|
    requires t.OSTCBPrio < |d.prioTbl| && d.prioTbl[t.OSTCBPrio] == Some(i) && d.tcbs[i].OSTCBPrio == t.OSTCBPrio
    ensures TasksOf(d.tcbs[i := t], d.prioTbl) == TasksOf(d.tcbs, d.prioTbl)[t.OSTCBPrio := TaskOf(t)]
  {
    var a, b := TasksOf(d.tcbs[i := t], d.prioTbl), TasksOf(d.tcbs, d.prioTbl)[t.OSTCBPrio := TaskOf(t)];
    assert a.Keys == b.Keys;
    forall p | p in a ensures a[p] == b[p] {
      LeadsTo(d.tcbs, d.prioTbl, d.lists.active, |d.prioTbl|, p);
    }
  }

  lemma UpdateTcb(d: Data, i: nat, t: OS_TCB, d': Data)
    requires Valid(d) && i in d.lists.active && i < |d.tcbs| && SamePlace(d.tcbs[i], t) && PointersOk(|d.events|, t)
    requires d' == d.(tcbs := d.tcbs[i := t])
    ensures Valid(d') && t.OSTCBPrio in Abs(d).tasks
    ensures Abs(d') == Abs(d).(tasks := Abs(d).tasks[t.OSTCBPrio := TaskOf(t)])
  {
    SameForward(d.tcbs, i, t, d.lists.head, d.lists.active, 0);
    SameForward(d.tcbs, i, t, d.lists.freeHead, d.lists.free, 0);
    SameBackward(d.tcbs, i, t, None, d.lists.active, 0);
    SamePointers(|d.events|, d.tcbs, |d.tcbs|, i, t);
    UpdateTcbTasks(d, i, t);
  }

  lemma RowExists(d: Data, i: nat)
    requires Valid(d) && i in d.lists.active
    ensures i < |d.tcbs| && d.tcbs[i].OSTCBY < |d.rdyTbl|
  {
    FoundInAll(d, i);
    PrioMap.WidthIsEnough(d.lowest, d.tcbs[i].OSTCBPrio);
  }

  lemma MakeReady(d: Data, i: nat, d': Data)
    requires Valid(d) && i in d.lists.active && i < |d.tcbs|
    requires var t := d.tcbs[i];
             && t.OSTCBY < |d.rdyTbl|
             && d' == d.(rdyGrp := Or(d.rdyGrp, t.OSTCBBitY),
                         rdyTbl := d.rdyTbl[t.OSTCBY := Or(d.rdyTbl[t.OSTCBY], t.OSTCBBitX)])
    ensures Valid(d') && Abs(d') == Abs(d).(ready := Abs(d).ready + {d.tcbs[i].OSTCBPrio})
  {
    FoundInAll(d, i);
    PrioMap.Insert(d.lowest, d.rdyGrp, d.rdyTbl, d.tcbs[i].OSTCBPrio);
  }

  lemma MakeUnready(d: Data, i: nat, d': Data)
    requires Valid(d) && i in d.lists.active && i < |d.tcbs|
    requires var t := d.tcbs[i];
             && t.OSTCBY < |d.rdyTbl|
             && var row := AndNot(d.rdyTbl[t.OSTCBY], t.OSTCBBitX);
             d' == d.(rdyGrp := if row == 0 then AndNot(d.rdyGrp, t.OSTCBBitY) else d.rdyGrp,
                      rdyTbl := d.rdyTbl[t.OSTCBY := row])
    ensures Valid(d') && Abs(d') == Abs(d).(ready := Abs(d).ready - {d.tcbs[i].OSTCBPrio})
  {
    FoundInAll(d, i);
    PrioMap.Remove(d.lowest, d.rdyGrp, d.rdyTbl, d.tcbs[i].OSTCBPrio);
  }

  /** `grp |= BitY; tbl[y] |= BitX` on an event. */
  function Waiting(ev: OS_EVENT, t: OS_TCB): OS_EVENT
    requires t.OSTCBY < |ev.OSEventTbl|
  {
    ev.(OSEventTbl := ev.OSEventTbl[t.OSTCBY := Or(ev.OSEventTbl[t.OSTCBY], t.OSTCBBitX)],
        OSEventGrp := Or(ev.OSEventGrp, t.OSTCBBitY))
  }

  /** `tbl[y] &= ~BitX; if (tbl[y] == 0) grp &= ~BitY` on an event. */
  function NotWaiting(ev: OS_EVENT, t: OS_TCB): OS_EVENT
    requires t.OSTCBY < |ev.OSEventTbl|
  {
    var row := AndNot(ev.OSEventTbl[t.OSTCBY], t.OSTCBBitX);
    ev.(OSEventTbl := ev.OSEventTbl[t.OSTCBY := row],
        OSEventGrp := if row == 0 then AndNot(ev.OSEventGrp, t.OSTCBBitY) else ev.OSEventGrp)
  }

  lemma {:induction false} SameWaitLists(lowest: nat, events: seq<OS_EVENT>, k: nat, e: nat, ev: OS_EVENT)
    requires k <= |events| && WaitListsOk(lowest, events, k) && e < |events| && EventOk(lowest, ev)
    ensures WaitListsOk(lowest, events[e := ev], k)
  {
    if k > 0 { SameWaitLists(lowest, events, k - 1, e, ev); }
  }

  lemma UpdateEvent(d: Data, e: nat, ev: OS_EVENT, s: set<Prio>, d': Data)
    requires Valid(d) && e < |d.events|
    requires EventOk(d.lowest, ev) && PrioMap.Members(d.lowest, ev.OSEventTbl) == s
    requires d' == d.(events := d.events[e := ev])
    ensures Valid(d') && Abs(d') == Abs(d).(waiters := Abs(d).waiters[e := s])
  {
    SameWaitLists(d.lowest, d.events, |d.events|, e, ev);
    assert WaitersOf(d.lowest, d'.events) == WaitersOf(d.lowest, d.events)[e := s];
  }

  lemma StartWaiting(d: Data, i: nat, e: nat)
    requires Valid(d) && i in d.lists.active && i < |d.tcbs| && e < |d.events|
    ensures d.tcbs[i].OSTCBY < |d.events[e].OSEventTbl|
    ensures var d' := d.(events := d.events[e := Waiting(d.events[e], d.tcbs[i])]);
            Valid(d') && Abs(d') == Abs(d).(waiters := Abs(d).waiters[e := Abs(d).waiters[e] + {d.tcbs[i].OSTCBPrio}])
  {
    var ev, t := d.events[e], d.tcbs[i];
    WaitListAt(d.lowest, d.events, |d.events|, e);
    FoundInAll(d, i);
    PrioMap.Insert(d.lowest, ev.OSEventGrp, ev.OSEventTbl, t.OSTCBPrio);
    UpdateEvent(d, e, Waiting(ev, t), Abs(d).waiters[e] + {t.OSTCBPrio}, d.(events := d.events[e := Waiting(ev, t)]));
  }

  lemma StopWaiting(d: Data, i: nat, e: nat)
    requires Valid(d) && i in d.lists.active && i < |d.tcbs| && e < |d.events|
    ensures d.tcbs[i].OSTCBY < |d.events[e].OSEventTbl|
    ensures var d' := d.(events := d.events[e := NotWaiting(d.events[e], d.tcbs[i])]);
            Valid(d') && Abs(d') == Abs(d).(waiters := Abs(d).waiters[e := Abs(d).waiters[e] - {d.tcbs[i].OSTCBPrio}])
  {
    var ev, t := d.events[e], d.tcbs[i];
    WaitListAt(d.lowest, d.events, |d.events|, e);
    FoundInAll(d, i);
    PrioMap.Remove(d.lowest, ev.OSEventGrp, ev.OSEventTbl, t.OSTCBPrio);
    UpdateEvent(d, e, NotWaiting(ev, t), Abs(d).waiters[e] - {t.OSTCBPrio},
                d.(events := d.events[e := NotWaiting(ev, t)]));
  }

  /** A task's TCB is active and carries its priority. */
  lemma TaskIsActive(d: Data, p: Prio)
    requires Valid(d) && p in Abs(d).tasks
    ensures p < |d.prioTbl| && d.prioTbl[p].Some? && d.prioTbl[p].value in d.lists.active
    ensures d.prioTbl[p].value < |d.tcbs|
    ensures d.tcbs[d.prioTbl[p].value].OSTCBPrio == p && Abs(d).tasks[p] == TaskOf(d.tcbs[d.prioTbl[p].value])
    ensures PointersOk(|d.events|, d.tcbs[d.prioTbl[p].value])
  {
    LeadsTo(d.tcbs, d.prioTbl, d.lists.active, |d.prioTbl|, p);
    PointersAt(|d.events|, d.tcbs, |d.tcbs|, d.prioTbl[p].value);
  }

  /** The running task is one of the active TCBs. */
  lemma CurrentIsActive(d: Data)
    requires Valid(d) && d.sched.running
    ensures d.sched.cur.Some? && d.sched.cur.value in d.lists.active && d.sched.cur.value < |d.tcbs|
    ensures d.tcbs[d.sched.cur.value].OSTCBPrio == d.sched.prioCur && d.sched.prioCur in Abs(d).tasks
    ensures Abs(d).tasks[d.sched.prioCur] == TaskOf(d.tcbs[d.sched.cur.value])
    ensures PointersOk(|d.events|, d.tcbs[d.sched.cur.value])
  {
    LeadsTo(d.tcbs, d.prioTbl, d.lists.active, |d.prioTbl|, d.sched.prioCur);
    PointersAt(|d.events|, d.tcbs, |d.tcbs|, d.sched.cur.value);
  }

  /** Every active TCB is a task. */
  lemma ActiveIsTask(d: Data, i: nat)
    requires Valid(d) && i in d.lists.active
    ensures i < |d.tcbs| && PointersOk(|d.events|, d.tcbs[i]) && BitsOk(d.lowest, d.tcbs[i])
    ensures d.tcbs[i].OSTCBPrio in Abs(d).tasks && Abs(d).tasks[d.tcbs[i].OSTCBPrio] == TaskOf(d.tcbs[i])
    ensures d.prioTbl[d.tcbs[i].OSTCBPrio] == Some(i)
  {
    FoundInAll(d, i);
    PointersAt(|d.events|, d.tcbs, |d.tcbs|, i);
  }

  /** What the priority table says about a priority. */
  lemma LookUp(d: Data, p: Prio)
    requires Valid(d) && p <= d.lowest
    ensures p < |d.prioTbl| && (d.prioTbl[p].Some? <==> p in Abs(d).tasks)
    ensures d.prioTbl[p].Some? ==>
              && d.prioTbl[p].value in d.lists.active && d.prioTbl[p].value < |d.tcbs|
              && d.tcbs[d.prioTbl[p].value].OSTCBPrio == p && Abs(d).tasks[p] == TaskOf(d.tcbs[d.prioTbl[p].value])
              && PointersOk(|d.events|, d.tcbs[d.prioTbl[p].value])
  {
    if d.prioTbl[p].Some? {
      LeadsTo(d.tcbs, d.prioTbl, d.lists.active, |d.prioTbl|, p);
      TaskIsActive(d, p);
    }
  }

  lemma StartRunning(d: Data)
    requires Valid(d) && d.sched.cur.Some? && d.sched.prioCur < |d.prioTbl| && d.prioTbl[d.sched.prioCur] == d.sched.cur
    ensures Valid(d.(sched := d.sched.(running := true)))
  { }

  lemma SetCurrent(d: Data, p: Prio)
    requires Valid(d) && p < |d.prioTbl| && d.prioTbl[p].Some?
    ensures var d' := d.(sched := d.sched.(cur := d.prioTbl[p], prioCur := p));
            Valid(d') && Abs(d') == Abs(d).(cur := p)
  { }

  // ---------------------------------------------------------------- lists of events

  lemma {:induction false} IdsLength(n: nat, s: seq<Ptr>, k: nat)
    requires EventListFrom(n, s, k)
    ensures k + |IdsFrom(s, k)| == |s| - 1 && s[|s| - 1] == None
    decreases |s| - k
  {
    if s[k].Some? { IdsLength(n, s, k + 1); }
  }

  lemma {:induction false} IdAt(n: nat, s: seq<Ptr>, k: nat, i: nat)
    requires EventListFrom(n, s, k) && i < |IdsFrom(s, k)|
    ensures k + i < |s| && s[k + i] == Some(IdsFrom(s, k)[i]) && IdsFrom(s, k)[i] < n
    decreases |s| - k
  {
    if i > 0 { IdAt(n, s, k + 1, i - 1); }
  }

  lemma IdsOfList(n: nat, s: seq<Ptr>)
    requires EventList(n, s)
    ensures |Ids(s)| == |s| - 1 && s[|s| - 1] == None
    ensures forall i | 0 <= i < |s| - 1 :: s[i] == Some(Ids(s)[i]) && Ids(s)[i] < n
  {
    IdsLength(n, s, 0);
    forall i | 0 <= i < |s| - 1 ensures s[i] == Some(Ids(s)[i]) && Ids(s)[i] < n { IdAt(n, s, 0, i); }
  }

  lemma AddedOneMore(w: seq<set<Prio>>, p: Prio, es: seq<EventId>, k: nat)
    requires k < |es| && es[k] < |w|
    ensures Added(w, p, es[..k + 1]) == Added(w, p, es[..k])[es[k] := Added(w, p, es[..k])[es[k]] + {p}]
  {
    assert es[..k + 1] == es[..k] + [es[k]];
  }

  lemma AddedOne(w: seq<set<Prio>>, p: Prio, e: EventId)
    requires e < |w|
    ensures Added(w, p, [e]) == w[e := w[e] + {p}]
  { }

  lemma RemovedOne(w: seq<set<Prio>>, p: Prio, e: EventId)
    requires e < |w|
    ensures Removed(w, p, [e]) == w[e := w[e] - {p}]
  { }

  lemma RemovedOneMore(w: seq<set<Prio>>, p: Prio, es: seq<EventId>, k: nat)
    requires k < |es| && es[k] < |w|
    ensures Removed(w, p, es[..k + 1]) == Removed(w, p, es[..k])[es[k] := Removed(w, p, es[..k])[es[k]] - {p}]
  {
    assert es[..k + 1] == es[..k] + [es[k]];
    assert forall s: set<Prio> :: (s - {p}) - {p} == s - {p};
  }

  lemma RemovedTwice(w: seq<set<Prio>>, p: Prio, a: seq<EventId>, b: seq<EventId>)
    ensures Removed(Removed(w, p, a), p, b) == Removed(w, p, a + b)
  {
    assert forall s: set<Prio> :: (s - {p}) - {p} == s - {p};
  }

  lemma TaskTold(t: OS_TCB, msg: Msg, mask: set<Flag>, pendStat: PendStat)
    ensures TaskOf(t.(OSTCBDly := 0, OSTCBMsg := msg, OSTCBStat := t.OSTCBStat - mask, OSTCBStatPend := pendStat))
         == TaskOf(t).(dly := 0, msg := msg, stat := t.OSTCBStat - mask, statPend := pendStat)
  { }

  /** OS_EventTaskRdy as its two halves: tell the waiter, then take it out of the wait lists. */
  lemma RdyInTwoHalves(s: State, e: EventId, msg: Msg, mask: set<Flag>, pendStat: PendStat, p: Prio, mid: State,
                       end: State)
    requires e < |s.waiters| && s.waiters[e] != {} && s.waiters[e] <= s.tasks.Keys && p == Highest(s.waiters[e])
    requires var t := s.tasks[p].(dly := 0, msg := msg, stat := s.tasks[p].stat - mask, statPend := pendStat);
             && mid == s.(tasks := s.tasks[p := t], ready := if Suspended(t) then s.ready else s.ready + {p})
             && end == mid.(tasks := if t.multi.Some? then mid.tasks[p := t.(event := Some(e))] else mid.tasks,
                            waiters := Removed(mid.waiters, p, if t.multi.Some? then [e] + t.multi.value else [e]))
    ensures end == EventTaskRdy(s, e, msg, mask, pendStat)
  {
    assert end.tasks == EventTaskRdy(s, e, msg, mask, pendStat).tasks;
  }

  // ---------------------------------------------------------------- ticks

  lemma TickPasses(s: State, p: Prio)
    requires p in s.tasks && s.tasks[p].dly == 0
    ensures TickOne(s, p) == s
  {
    assert s.tasks[p := s.tasks[p]] == s.tasks;
  }

  lemma TickExpires(s: State, p: Prio)
    requires p in s.tasks && s.tasks[p].dly == 1
    ensures TickOne(s, p) == s.(tasks := s.tasks[p := Expire(s.tasks[p])],
                                ready := if Suspended(s.tasks[p]) then s.ready else s.ready + {p})
  { }

  lemma TickCounts(s: State, p: Prio, t: Task)
    requires p in s.tasks && s.tasks[p].dly > 1 && t == s.tasks[p].(dly := s.tasks[p].dly - 1)
    ensures TickOne(s, p) == s.(tasks := s.tasks[p := t])
  { }

  /** The effect of a tick on the tasks of priorities `done`. */
  ghost function TickSome(s: State, done: set<Prio>): State {
    s.(tasks := map p | p in s.tasks :: if p in done then TickTask(s.tasks[p]) else s.tasks[p],
       ready := s.ready + set p | p in s.tasks && p in done && TickWakes(s.tasks[p]))
  }

  lemma TickNone(s: State)
    ensures TickSome(s, {}) == s
  { }

  lemma TickOneMore(s: State, done: set<Prio>, p: Prio)
    requires p in s.tasks && p !in done
    ensures TickSome(s, done + {p}) == TickOne(TickSome(s, done), p)
  {
    var a, b := TickSome(s, done + {p}), TickOne(TickSome(s, done), p);
    assert a.tasks == b.tasks;
    assert a.ready == b.ready;
  }

  lemma TickAll(s: State, step: TickStep)
    requires TickIsProcessed(s) && step == (if s.stepState == StepOnce then StepWait else StepDisabled)
    ensures var s' := s.(stepState := step); TickSome(s', s'.tasks.Keys - {s.idle}) == TimeTick(s)
  {
    var a, b := TickSome(s.(stepState := step), s.tasks.Keys - {s.idle}), TimeTick(s);
    assert a.tasks == b.tasks;
    assert a.ready == b.ready;
  }

  /** The priorities of the first `k` TCBs of the list. */
  ghost function Done(prioTbl: seq<Ptr>, active: seq<nat>, k: nat): set<Prio>
    requires k <= |active|
  {
    set p | 0 <= p < |prioTbl| && prioTbl[p].Some? && prioTbl[p].value in active[..k]
  }

  lemma {:induction false} NextFrom(tcbs: seq<OS_TCB>, p: Ptr, list: seq<nat>, j: nat, k: nat)
    requires Forward(tcbs, p, list, j) && j <= k < |list|
    ensures list[k] < |tcbs| && tcbs[list[k]].OSTCBNext == if k + 1 < |list| then Some(list[k + 1]) else None
    decreases k - j
  {
    if j < k {
      NextFrom(tcbs, tcbs[list[j]].OSTCBNext, list, j + 1, k);
    } else {
      assert Forward(tcbs, tcbs[list[k]].OSTCBNext, list, k + 1);
    }
  }

  /** Before the first TCB of the list nothing is done. */
  lemma HeadOfList(d: Data)
    requires Valid(d) && d.sched.running
    ensures d.lists.head.Some? && d.lists.active != [] && d.lists.head.value == d.lists.active[0] < |d.tcbs|
    ensures Abs(d) == TickSome(Abs(d), Done(d.prioTbl, d.lists.active, 0))
  {
    CurrentIsActive(d);
    TickNone(Abs(d));
    assert Done(d.prioTbl, d.lists.active, 0) == {};
  }

  lemma NextInList(d: Data, k: nat)
    requires Valid(d) && k + 1 < |d.lists.active|
    ensures d.lists.active[k] < |d.tcbs| && d.tcbs[d.lists.active[k]].OSTCBNext == Some(d.lists.active[k + 1])
    ensures d.lists.active[k + 1] < |d.tcbs|
  {
    NextFrom(d.tcbs, d.lists.head, d.lists.active, 0, k);
    NextFrom(d.tcbs, d.lists.head, d.lists.active, 0, k + 1);
  }

  lemma CountsTwice(list: seq<nat>, j: nat, k: nat)
    requires j < k < |list| && list[j] == list[k]
    ensures multiset(list)[list[k]] >= 2
  {
    assert list == list[..k] + [list[k]] + list[k + 1..];
    assert list[k] in list[..k];
  }

  /** No TCB is twice in the list. */
  lemma OnlyOnce(n: nat, active: seq<nat>, free: seq<nat>, j: nat, k: nat)
    requires multiset(active) + multiset(free) == multiset(Range(n)) && j < k < |active|
    ensures active[j] != active[k]
  {
    InList(n, active, free, active[k]);
    if active[j] == active[k] { CountsTwice(active, j, k); }
  }

  /** Position `k` of the list before its end: its task is not done, and the next TCB follows. */
  lemma NextTcb(d: Data, k: nat)
    requires Valid(d) && k < |d.lists.active| && d.lists.active[k] < |d.tcbs|
    requires d.tcbs[d.lists.active[k]].OSTCBPrio != d.lowest
    ensures k + 1 < |d.lists.active| && d.tcbs[d.lists.active[k]].OSTCBNext == Some(d.lists.active[k + 1])
    ensures d.lists.active[k + 1] < |d.tcbs|
    ensures var t := d.tcbs[d.lists.active[k]];
            && t.OSTCBPrio in Abs(d).tasks && Abs(d).tasks[t.OSTCBPrio] == TaskOf(t) && PointersOk(|d.events|, t)
            && t.OSTCBPrio !in Done(d.prioTbl, d.lists.active, k)
            && Done(d.prioTbl, d.lists.active, k + 1) == Done(d.prioTbl, d.lists.active, k) + {t.OSTCBPrio}
  {
    var active := d.lists.active;
    NextFrom(d.tcbs, d.lists.head, active, 0, k);
    ActiveIsTask(d, active[k]);
    NextFrom(d.tcbs, d.lists.head, active, 0, k + 1);
    assert active[..k + 1] == active[..k] + [active[k]];
    if active[k] in active[..k] {
      var j :| 0 <= j < k && active[j] == active[k];
      OnlyOnce(|d.tcbs|, active, d.lists.free, j, k);
    }
    forall p | 0 <= p < |d.prioTbl| && d.prioTbl[p] == Some(active[k]) ensures p == d.tcbs[active[k]].OSTCBPrio {
      LeadsTo(d.tcbs, d.prioTbl, active, |d.prioTbl|, p);
    }
  }

  /** When the loop meets the idle task, every other task is done. */
  lemma AllDone(d: Data, k: nat)
    requires Valid(d) && k < |d.lists.active| && d.lists.active[k] < |d.tcbs|
    requires d.tcbs[d.lists.active[k]].OSTCBPrio == d.lowest
    ensures Done(d.prioTbl, d.lists.active, k) == Abs(d).tasks.Keys - {d.lowest}
  {
    hide Found;
    var active := d.lists.active;
    var last := |active| - 1;
    ActiveIsTask(d, active[k]);
    ActiveIsTask(d, active[last]);
    if k < last { OnlyOnce(|d.tcbs|, active, d.lists.free, k, last); }
    assert k == last;
    forall p ensures p in Done(d.prioTbl, active, k) <==> p in Abs(d).tasks && p != d.lowest {
      if 0 <= p < |d.prioTbl| && d.prioTbl[p].Some? {
        LeadsTo(d.tcbs, d.prioTbl, active, |d.prioTbl|, p);
        var i := d.prioTbl[p].value;
        if p == d.lowest && i in active[..k] {
          var j :| 0 <= j < k && active[j] == active[last];
          OnlyOnce(|d.tcbs|, active, d.lists.free, j, last);
        }
      }
    }
  }

  /** The loop of OSTimeTick stands at position `k` of the list, having started from state `s`. */
  ghost predicate TickAt(d: Data, s: State, ptcb: nat, k: nat) {
    match d.lists
    case Lists(_, _, _, active, _) =>
      && Valid(d) && k < |active| && ptcb == active[k] && ptcb < |d.tcbs|
      && Abs(d) == TickSome(s, Done(d.prioTbl, active, k))
  }

  lemma TickStarts(d: Data)
    requires Valid(d) && d.sched.running
    ensures d.lists.head.Some? && TickAt(d, Abs(d), d.lists.head.value, 0)
  {
    HeadOfList(d);
  }

  lemma TickEnds(d: Data, s: State, ptcb: nat, k: nat)
    requires TickAt(d, s, ptcb, k) && ptcb < |d.tcbs| && d.tcbs[ptcb].OSTCBPrio == d.lowest
    ensures Valid(d) && Abs(d) == TickSome(s, s.tasks.Keys - {d.lowest})
  {
    AllDone(d, k);
    assert Abs(d).tasks.Keys == s.tasks.Keys;
  }

  // ---------------------------------------------------------------- creating a task

  /** The TCB OS_TCBInit fills in for a task of priority `prio`, in front of the TCB `next`. */
  function NewTcb(lowest: nat, prio: nat, next: Ptr): OS_TCB {
    OS_TCB(next, None, None, None, NULL_MSG, 0, {}, PendOk, prio,
           PrioMap.ColOf(lowest, prio), PrioMap.RowOf(lowest, prio),
           Bit(PrioMap.ColOf(lowest, prio)), Bit(PrioMap.RowOf(lowest, prio)))
  }

  /** The table after TCB `i` has become the new head of the list. */
  function LinkFirst(tcbs: seq<OS_TCB>, i: nat, t: OS_TCB, head: Ptr): seq<OS_TCB>
    requires i < |tcbs| && (head.Some? ==> head.value < |tcbs|)
  {
    var placed := tcbs[i := t];
    if head.Some? then placed[head.value := placed[head.value].(OSTCBPrev := Some(i))] else placed
  }

  lemma {:induction false} ForwardShifts(tcbs: seq<OS_TCB>, tcbs': seq<OS_TCB>, p: Ptr, list: seq<nat>, i: nat, k: nat)
    requires Forward(tcbs, p, list, k) && |tcbs'| == |tcbs| && i !in list
    requires forall x | 0 <= x < |tcbs| && x != i :: tcbs'[x].OSTCBNext == tcbs[x].OSTCBNext
    ensures Forward(tcbs', p, [i] + list, k + 1)
    decreases |list| - k
  {
    if k < |list| { ForwardShifts(tcbs, tcbs', tcbs[list[k]].OSTCBNext, list, i, k + 1); }
  }

  lemma {:induction false} BackwardShifts(tcbs: seq<OS_TCB>, tcbs': seq<OS_TCB>, prev: Ptr, list: seq<nat>, i: nat,
                                          k: nat)
    requires Backward(tcbs, prev, list, k) && |tcbs'| == |tcbs|
    requires forall j | k <= j < |list| && list[j] < |tcbs| :: tcbs'[list[j]].OSTCBPrev == tcbs[list[j]].OSTCBPrev
    ensures Backward(tcbs', prev, [i] + list, k + 1)
    decreases |list| - k
  {
    if k < |list| { BackwardShifts(tcbs, tcbs', Some(list[k]), list, i, k + 1); }
  }

  lemma {:induction false} ForwardDrops(tcbs: seq<OS_TCB>, tcbs': seq<OS_TCB>, p: Ptr, list: seq<nat>, i: nat, k: nat)
    requires list != [] && 1 <= k && Forward(tcbs, p, list, k) && |tcbs'| == |tcbs|
    requires forall j | k <= j < |list| :: list[j] != i
    requires forall x | 0 <= x < |tcbs| && x != i :: tcbs'[x].OSTCBNext == tcbs[x].OSTCBNext
    ensures Forward(tcbs', p, list[1..], k - 1)
    decreases |list| - k
  {
    if k < |list| { ForwardDrops(tcbs, tcbs', tcbs[list[k]].OSTCBNext, list, i, k + 1); }
  }

  lemma HeadIsActive(tcbs: seq<OS_TCB>, l: Lists)
    requires ListsOk(tcbs, l)
    ensures l.head.Some? ==> l.head.value in l.active && l.head.value < |tcbs|
  { }

  lemma CreateLists(tcbs: seq<OS_TCB>, l: Lists, t: OS_TCB)
    requires ListsOk(tcbs, l) && l.free != []
    ensures var i := l.free[0];
            && i < |tcbs| && (l.head.Some? ==> l.head.value < |tcbs|)
            && (t.OSTCBNext == l.head && t.OSTCBPrev == None ==>
                  ListsOk(LinkFirst(tcbs, i, t, l.head),
                          Lists(Some(i), tcbs[i].OSTCBNext, l.taskCtr + 1, [i] + l.active, l.free[1..])))
  {
    hide Range;
    var i := l.free[0];
    InList(|tcbs|, l.active, l.free, i);
    HeadIsActive(tcbs, l);
    if t.OSTCBNext == l.head && t.OSTCBPrev == None {
      var tcbs' := LinkFirst(tcbs, i, t, l.head);
      assert l.free == [i] + l.free[1..];
      ForwardShifts(tcbs, tcbs', l.head, l.active, i, 0);
      assert Forward(tcbs', Some(i), [i] + l.active, 0);
      CreateFree(tcbs, l, t);
      CreateBackward(tcbs, l, t);
    }
  }

  lemma CreateFree(tcbs: seq<OS_TCB>, l: Lists, t: OS_TCB)
    requires ListsOk(tcbs, l) && l.free != [] && l.free[0] < |tcbs| && (l.head.Some? ==> l.head.value < |tcbs|)
    ensures Forward(LinkFirst(tcbs, l.free[0], t, l.head), tcbs[l.free[0]].OSTCBNext, l.free[1..], 0)
  {
    var i := l.free[0];
    forall j | 1 <= j < |l.free| ensures l.free[j] != i {
      assert multiset(l.free) + multiset(l.active) == multiset(Range(|tcbs|));
      OnlyOnce(|tcbs|, l.free, l.active, 0, j);
    }
    assert Forward(tcbs, tcbs[i].OSTCBNext, l.free, 1);
    ForwardDrops(tcbs, LinkFirst(tcbs, i, t, l.head), tcbs[i].OSTCBNext, l.free, i, 1);
  }

  lemma CreateBackward(tcbs: seq<OS_TCB>, l: Lists, t: OS_TCB)
    requires ListsOk(tcbs, l) && l.free != [] && l.free[0] < |tcbs| && l.free[0] !in l.active
    requires l.head.Some? ==> l.head.value < |tcbs|
    requires t.OSTCBPrev == None
    ensures Backward(LinkFirst(tcbs, l.free[0], t, l.head), None, [l.free[0]] + l.active, 0)
  {
    var i := l.free[0];
    var tcbs' := LinkFirst(tcbs, i, t, l.head);
    if l.active != [] {
      assert Backward(tcbs, Some(l.active[0]), l.active, 1);
      forall j | 1 <= j < |l.active| && l.active[j] < |tcbs|
        ensures tcbs'[l.active[j]].OSTCBPrev == tcbs[l.active[j]].OSTCBPrev {
        OnlyOnce(|tcbs|, l.active, l.free, 0, j);
        assert l.active[j] in l.active;
      }
      BackwardShifts(tcbs, tcbs', Some(l.active[0]), l.active, i, 1);
      assert Backward(tcbs', Some(i), [i] + l.active, 1);
    }
  }

  lemma {:induction false} CreateFound(lowest: nat, tcbs: seq<OS_TCB>, tcbs': seq<OS_TCB>, prioTbl: seq<Ptr>,
                                       prioTbl': seq<Ptr>,
                                       list: seq<nat>, i: nat, n: nat)
    requires n <= |list| && Found(lowest, tcbs, prioTbl, list, n) && |tcbs'| == |tcbs| && i < |tcbs| && i !in list
    requires forall x | 0 <= x < |tcbs| && x != i :: SameBits(tcbs[x], tcbs'[x])
    requires BitsOk(lowest, tcbs'[i]) && |prioTbl'| == |prioTbl| && tcbs'[i].OSTCBPrio < |prioTbl|
    requires prioTbl[tcbs'[i].OSTCBPrio] == None
    requires prioTbl' == prioTbl[tcbs'[i].OSTCBPrio := Some(i)]
    ensures Found(lowest, tcbs', prioTbl', [i] + list, n + 1)
  {
    if n == 0 {
      assert Found(lowest, tcbs', prioTbl', [i] + list, 0);
    } else {
      CreateFound(lowest, tcbs, tcbs', prioTbl, prioTbl', list, i, n - 1);
    }
  }

  ghost predicate SameBits(t: OS_TCB, t': OS_TCB) {
    && t'.OSTCBPrio == t.OSTCBPrio && t'.OSTCBX == t.OSTCBX && t'.OSTCBY == t.OSTCBY
    && t'.OSTCBBitX == t.OSTCBBitX && t'.OSTCBBitY == t.OSTCBBitY
    && TaskOf(t') == TaskOf(t)
    && t'.OSTCBEventPtr == t.OSTCBEventPtr && t'.OSTCBEventMultiPtr == t.OSTCBEventMultiPtr
  }

  lemma {:induction false} CreateLeads(tcbs: seq<OS_TCB>, tcbs': seq<OS_TCB>, prioTbl: seq<Ptr>, list: seq<nat>,
                                       i: nat, n: nat)
    requires n <= |prioTbl| && LeadToTasks(tcbs, prioTbl, list, n) && |tcbs'| == |tcbs| && i < |tcbs| && i !in list
    requires forall x | 0 <= x < |tcbs| && x != i :: SameBits(tcbs[x], tcbs'[x])
    requires tcbs'[i].OSTCBPrio < |prioTbl|
    ensures LeadToTasks(tcbs', prioTbl[tcbs'[i].OSTCBPrio := Some(i)], [i] + list, n)
  {
    if n > 0 { CreateLeads(tcbs, tcbs', prioTbl, list, i, n - 1); }
  }

  lemma {:induction false} CreatePointers(n: nat, tcbs: seq<OS_TCB>, tcbs': seq<OS_TCB>, i: nat, k: nat)
    requires k <= |tcbs| == |tcbs'| && AllPointersOk(n, tcbs, k) && i < |tcbs| && PointersOk(n, tcbs'[i])
    requires forall x | 0 <= x < |tcbs| && x != i :: SameBits(tcbs[x], tcbs'[x])
    ensures AllPointersOk(n, tcbs', k)
  {
    if k > 0 { CreatePointers(n, tcbs, tcbs', i, k - 1); }
  }

  /** A TCB can be taken from the free list and put in front of the other one. */
  ghost predicate CanTake(tcbs: seq<OS_TCB>, l: Lists) {
    && l.free != [] && l.free[0] < |tcbs| && l.freeHead == Some(l.free[0])
    && (l.head.Some? ==> l.head.value < |tcbs| && l.head != l.freeHead)
  }

  lemma FreeCanBeTaken(tcbs: seq<OS_TCB>, l: Lists)
    requires ListsOk(tcbs, l)
    ensures l.freeHead == None <==> l.free == []
    ensures l.free != [] ==> CanTake(tcbs, l)
  {
    HeadIsActive(tcbs, l);
    if l.free != [] { InList(|tcbs|, l.active, l.free, l.free[0]); }
  }

  /** The first free TCB has become `t`, the head of the list of tasks. */
  ghost function Linked(d: Data, t: OS_TCB): Data
    requires CanTake(d.tcbs, d.lists) && t.OSTCBPrio < |d.prioTbl|
  {
    var i := d.lists.free[0];
    d.(tcbs := LinkFirst(d.tcbs, i, t, d.lists.head),
       prioTbl := d.prioTbl[t.OSTCBPrio := Some(i)],
       lists := Lists(Some(i), d.tcbs[i].OSTCBNext, d.lists.taskCtr + 1, [i] + d.lists.active, d.lists.free[1..]))
  }

  /** OS_TCBInit, up to making the new task ready. */
  ghost function Created(d: Data, prio: nat): Data
    requires CanTake(d.tcbs, d.lists) && prio < |d.prioTbl|
  {
    Linked(d, NewTcb(d.lowest, prio, d.lists.head))
  }

  lemma LinkFirstIs(tcbs: seq<OS_TCB>, i: nat, t: OS_TCB, head: Ptr)
    requires i < |tcbs| && (head.Some? ==> head.value < |tcbs| && head.value != i)
    ensures var tcbs' := LinkFirst(tcbs, i, t, head);
            |tcbs'| == |tcbs| && tcbs'[i] == t && forall x | 0 <= x < |tcbs| && x != i :: SameBits(tcbs[x], tcbs'[x])
  { }

  lemma CreatedLists(d: Data, prio: nat)
    requires ListsOk(d.tcbs, d.lists) && CanTake(d.tcbs, d.lists) && prio < |d.prioTbl|
    ensures var i, d' := d.lists.free[0], Created(d, prio);
            && i < |d.tcbs| == |d'.tcbs| && i !in d.lists.active
            && ListsOk(d'.tcbs, d'.lists)
            && d'.tcbs[i] == NewTcb(d.lowest, prio, d.lists.head)
            && forall x | 0 <= x < |d.tcbs| && x != i :: SameBits(d.tcbs[x], d'.tcbs[x])
  {
    LinkFirstIs(d.tcbs, d.lists.free[0], NewTcb(d.lowest, prio, d.lists.head), d.lists.head);
    CreateLists(d.tcbs, d.lists, NewTcb(d.lowest, prio, d.lists.head));
    InList(|d.tcbs|, d.lists.active, d.lists.free, d.lists.free[0]);
  }

  lemma CreatedOk(d: Data, prio: nat)
    requires Valid(d) && CanTake(d.tcbs, d.lists) && prio <= d.lowest && prio < |d.prioTbl| && d.prioTbl[prio] == None
    requires d.lists.active == [] ==> prio == d.lowest
    ensures Valid(Created(d, prio))
    ensures Abs(Created(d, prio)) == Abs(d).(tasks := Abs(d).tasks[prio := FRESH_TASK])
  {
    CreatedLists(d, prio);
    CreatedTable(d, prio, Created(d, prio));
  }

  lemma CreatedTable(d: Data, prio: nat, d': Data)
    requires TasksOk(d.lowest, d.tcbs, d.prioTbl, d.lists.active) && AllPointersOk(|d.events|, d.tcbs, |d.tcbs|)
    requires d.lists.free != [] && prio <= d.lowest && prio < |d.prioTbl| && d.prioTbl[prio] == None
    requires d.lists.active == [] ==> prio == d.lowest
    requires var i := d.lists.free[0];
             && i < |d.tcbs| == |d'.tcbs| && i !in d.lists.active
             && d'.tcbs[i] == NewTcb(d.lowest, prio, d.lists.head)
             && d'.lists.active == [i] + d.lists.active && d'.prioTbl == d.prioTbl[prio := Some(i)]
             && forall x | 0 <= x < |d.tcbs| && x != i :: SameBits(d.tcbs[x], d'.tcbs[x])
    ensures TasksOk(d.lowest, d'.tcbs, d'.prioTbl, d'.lists.active)
    ensures AllPointersOk(|d.events|, d'.tcbs, |d'.tcbs|)
    ensures TasksOf(d'.tcbs, d'.prioTbl) == TasksOf(d.tcbs, d.prioTbl)[prio := FRESH_TASK]
  {
    var i, active := d.lists.free[0], d.lists.active;
    CreateFound(d.lowest, d.tcbs, d'.tcbs, d.prioTbl, d'.prioTbl, active, i, |active|);
    CreateLeads(d.tcbs, d'.tcbs, d.prioTbl, active, i, |d.prioTbl|);
    CreatePointers(|d.events|, d.tcbs, d'.tcbs, i, |d.tcbs|);
    if active != [] { assert active[|active| - 1] in active; }
    CreatedTasks(d, d', prio, i);
  }

  lemma CreatedTasks(d: Data, d': Data, prio: nat, i: nat)
    requires |d'.tcbs| == |d.tcbs| && i < |d.tcbs| && prio < |d.prioTbl| && d'.prioTbl == d.prioTbl[prio := Some(i)]
    requires TaskOf(d'.tcbs[i]) == FRESH_TASK && i !in d.lists.active
    requires LeadToTasks(d.tcbs, d.prioTbl, d.lists.active, |d.prioTbl|)
    requires forall x | 0 <= x < |d.tcbs| && x != i :: SameBits(d.tcbs[x], d'.tcbs[x])
    ensures TasksOf(d'.tcbs, d'.prioTbl) == TasksOf(d.tcbs, d.prioTbl)[prio := FRESH_TASK]
  {
    var a, b := TasksOf(d'.tcbs, d'.prioTbl), TasksOf(d.tcbs, d.prioTbl)[prio := FRESH_TASK];
    assert a.Keys == b.Keys;
    forall p | p in a ensures a[p] == b[p] {
      if p != prio { LeadsTo(d.tcbs, d.prioTbl, d.lists.active, |d.prioTbl|, p); }
    }
  }

  // ---------------------------------------------------------------- initialisation

  /** A cleared TCB, linked in front of the TCB `next` of the free list. */
  function FreeTcb(next: Ptr): OS_TCB {
    OS_TCB(next, None, None, None, NULL_MSG, 0, {}, PendOk, 0, 0, 0, 0, 0)
  }

  /** An event control block nobody uses. */
  function FreeEvent(lowest: nat): OS_EVENT {
    OS_EVENT(TypeUnused, NULL_MSG, OS_Q([], 0, 0), 0, 0, seq(PrioMap.Rows(lowest), _ => 0))
  }

  /** The first `n` TCBs are cleared, each linked to the next. */
  ghost predicate FreshTcbs(tcbs: seq<OS_TCB>, n: nat)
    requires n <= |tcbs|
  {
    forall i | 0 <= i < n :: tcbs[i] == FreeTcb(if i + 1 < |tcbs| then Some(i + 1) else None)
  }

  lemma {:induction false} RangeIs(n: nat)
    ensures |Range(n)| == n && forall i | 0 <= i < n :: Range(n)[i] == i
  {
    if n > 0 { RangeIs(n - 1); }
  }

  lemma {:induction false} FreshForward(tcbs: seq<OS_TCB>, k: nat)
    requires k <= |tcbs| && FreshTcbs(tcbs, |tcbs|)
    ensures Forward(tcbs, if k < |tcbs| then Some(k) else None, Range(|tcbs|), k)
    decreases |tcbs| - k
  {
    RangeIs(|tcbs|);
    if k < |tcbs| { FreshForward(tcbs, k + 1); }
  }

  lemma {:induction false} FreshPointers(n: nat, tcbs: seq<OS_TCB>, k: nat)
    requires k <= |tcbs| && FreshTcbs(tcbs, |tcbs|)
    ensures AllPointersOk(n, tcbs, k)
  {
    if k > 0 { FreshPointers(n, tcbs, k - 1); }
  }

  lemma {:induction false} FreshLeads(tcbs: seq<OS_TCB>, prioTbl: seq<Ptr>, n: nat)
    requires n <= |prioTbl| && forall p | 0 <= p < |prioTbl| :: prioTbl[p] == None
    ensures LeadToTasks(tcbs, prioTbl, [], n)
  {
    if n > 0 { FreshLeads(tcbs, prioTbl, n - 1); }
  }

  lemma {:induction false} FreshWaitLists(lowest: nat, events: seq<OS_EVENT>, k: nat)
    requires lowest <= PrioMap.MAX_LOWEST_PRIO && k <= |events|
    requires forall e | 0 <= e < |events| :: events[e] == FreeEvent(lowest)
    ensures WaitListsOk(lowest, events, k)
  {
    if k > 0 {
      PrioMap.Cleared(lowest, FreeEvent(lowest).OSEventTbl);
      FreshWaitLists(lowest, events, k - 1);
    }
  }

  /** What OSInit leaves in the tables before it creates the idle task. */
  ghost predicate Cleared(d: Data) {
    && d.tcbs != [] && FreshTcbs(d.tcbs, |d.tcbs|)
    && |d.prioTbl| == d.lowest + 1 && (forall p | 0 <= p < |d.prioTbl| :: d.prioTbl[p] == None)
    && d.rdyGrp == 0 && |d.rdyTbl| == PrioMap.Rows(d.lowest) && (forall y | 0 <= y < |d.rdyTbl| :: d.rdyTbl[y] == 0)
    && (forall e | 0 <= e < |d.events| :: d.events[e] == FreeEvent(d.lowest))
    && d.lists == Lists(None, Some(0), 0, [], Range(|d.tcbs|))
    && d.sched == SchedVars(false, 0, 0, StepDisabled, 0, None, 0)
  }

  /** The state of a kernel without tasks. */
  ghost function EmptyState(lowest: nat, events: nat): State {
    State(lowest, false, 0, 0, StepDisabled, map[], {}, seq(events, _ => {}), 0, 0)
  }

  lemma ClearedIsValid(d: Data)
    requires d.lowest <= PrioMap.MAX_LOWEST_PRIO && Cleared(d)
    ensures Valid(d) && Abs(d) == EmptyState(d.lowest, |d.events|)
  {
    RangeIs(|d.tcbs|);
    FreshForward(d.tcbs, 0);
    FreshPointers(|d.events|, d.tcbs, |d.tcbs|);
    FreshLeads(d.tcbs, d.prioTbl, |d.prioTbl|);
    FreshWaitLists(d.lowest, d.events, |d.events|);
    PrioMap.Cleared(d.lowest, d.rdyTbl);
    ClearedWaiters(d.lowest, d.events);
    assert TasksOf(d.tcbs, d.prioTbl) == map[];
  }

  lemma ClearedWaiters(lowest: nat, events: seq<OS_EVENT>)
    requires lowest <= PrioMap.MAX_LOWEST_PRIO
    requires forall e | 0 <= e < |events| :: events[e] == FreeEvent(lowest)
    ensures WaitersOf(lowest, events) == seq(|events|, _ => {})
  {
    PrioMap.Cleared(lowest, FreeEvent(lowest).OSEventTbl);
  }
}
