/**
 The kernel services of os_core.c. The class holds the kernel's global variables and updates
 them in place; every service is proved against its meaning in KernelSpec.
 */
module Kernel {
  import opened Basics
  import opened Words
  import opened KernelSpec
  import opened KernelData
  import opened KernelPend
  import KernelRuns
  import KernelTheorems
  import PrioMap

  class OS_Kernel {
    const OS_LOWEST_PRIO: nat
    const OSRdyTbl: array<nat>
    const OSTCBTbl: array<OS_TCB>
    const OSTCBPrioTbl: array<Ptr>
    const OSEventTbl: array<OS_EVENT>

    var OSRdyGrp: nat
    var OSTCBList: Ptr
    var OSTCBFreeList: Ptr
    var OSTaskCtr: nat
    var OSRunning: bool
    var OSIntNesting: nat
    var OSLockNesting: nat
    var OSTickStepState: TickStep
    var OSTime: nat
    var OSPrioCur: nat
    var OSPrioHighRdy: nat
    var OSTCBCur: Ptr
    var OSTCBHighRdy: Ptr
    var OSCtxSwCtr: nat

    ghost var active: seq<nat>        // the list that OSTCBList heads
    ghost var free: seq<nat>          // the list that OSTCBFreeList heads

    ghost function Data(): Data
      reads this, OSRdyTbl, OSTCBTbl, OSTCBPrioTbl, OSEventTbl
    {
      KernelData.Data(OS_LOWEST_PRIO, OSRdyGrp, OSRdyTbl[..], OSTCBTbl[..], OSTCBPrioTbl[..], OSEventTbl[..],
                      Lists(OSTCBList, OSTCBFreeList, OSTaskCtr, active, free),
                      SchedVars(OSRunning, OSIntNesting, OSLockNesting, OSTickStepState, OSPrioCur, OSTCBCur,
                                OSCtxSwCtr))
    }

    ghost function Abs(): State
      reads this, OSRdyTbl, OSTCBTbl, OSTCBPrioTbl, OSEventTbl
    {
      KernelData.Abs(Data())
    }

    ghost predicate Valid()
      reads this, OSRdyTbl, OSTCBTbl, OSTCBPrioTbl, OSEventTbl
    {
      KernelData.Valid(Data())
    }

    // -------------------------------------------------------------- single updates

    /** Assign the fields of an active TCB that are not its place in the tables. */
    method PutTcb(i: nat, t: OS_TCB)
      requires Valid() && i in active && i < OSTCBTbl.Length
      requires SamePlace(OSTCBTbl[i], t) && PointersOk(OSEventTbl.Length, t)
      modifies OSTCBTbl
      ensures Valid() && OSTCBTbl[..] == old(OSTCBTbl[..])[i := t]
      ensures Abs() == old(Abs()).(tasks := old(Abs()).tasks[t.OSTCBPrio := TaskOf(t)])
    {
      ghost var d := Data();
      OSTCBTbl[i] := t;
      UpdateTcb(d, i, t, Data());
    }

    /** Put a task into the ready list. */
    method MakeReady(i: nat)
      requires Valid() && i in active && i < OSTCBTbl.Length
      modifies `OSRdyGrp, OSRdyTbl
      ensures Valid() && Abs() == old(Abs()).(ready := old(Abs()).ready + {OSTCBTbl[i].OSTCBPrio})
    {
      ghost var d := Data();
      RowExists(d, i);
      OSRdyGrp := Or(OSRdyGrp, OSTCBTbl[i].OSTCBBitY);
      OSRdyTbl[OSTCBTbl[i].OSTCBY] := Or(OSRdyTbl[OSTCBTbl[i].OSTCBY], OSTCBTbl[i].OSTCBBitX);
      KernelData.MakeReady(d, i, Data());
    }

    /** Take a task out of the ready list. */
    method MakeUnready(i: nat)
      requires Valid() && i in active && i < OSTCBTbl.Length
      modifies `OSRdyGrp, OSRdyTbl
      ensures Valid() && Abs() == old(Abs()).(ready := old(Abs()).ready - {OSTCBTbl[i].OSTCBPrio})
    {
      ghost var d := Data();
      var y := OSTCBTbl[i].OSTCBY;
      RowExists(d, i);
      OSRdyTbl[y] := AndNot(OSRdyTbl[y], OSTCBTbl[i].OSTCBBitX);
      if OSRdyTbl[y] == 0 {
        OSRdyGrp := AndNot(OSRdyGrp, OSTCBTbl[i].OSTCBBitY);
      }
      KernelData.MakeUnready(d, i, Data());
    }

    /** Put a task into the wait list of one event. */
    method AddWaiter(i: nat, pevent: nat)
      requires Valid() && i in active && i < OSTCBTbl.Length && pevent < OSEventTbl.Length
      modifies OSEventTbl
      ensures OSTCBTbl[i].OSTCBY < |old(OSEventTbl[pevent]).OSEventTbl|
      ensures Valid() && OSEventTbl[..] == old(OSEventTbl[..])[pevent := Waiting(old(OSEventTbl[pevent]), OSTCBTbl[i])]
      ensures Abs() == old(Abs()).(
                         waiters := old(Abs()).waiters[pevent := old(Abs()).waiters[pevent]
                                                                 + {OSTCBTbl[i].OSTCBPrio}])
    {
      ghost var d := Data();
      StartWaiting(d, i, pevent);
      OSEventTbl[pevent] := Waiting(OSEventTbl[pevent], OSTCBTbl[i]);
      assert Data() == d.(events := d.events[pevent := Waiting(d.events[pevent], d.tcbs[i])]);
    }

    /** OS_EventTaskRemove. */
    method OS_EventTaskRemove(ptcb: nat, pevent: nat)
      requires Valid() && ptcb in active && ptcb < OSTCBTbl.Length && pevent < OSEventTbl.Length
      modifies OSEventTbl
      ensures OSTCBTbl[ptcb].OSTCBY < |old(OSEventTbl[pevent]).OSEventTbl|
      ensures Valid()
      ensures OSEventTbl[..] == old(OSEventTbl[..])[pevent := NotWaiting(old(OSEventTbl[pevent]), OSTCBTbl[ptcb])]
      ensures Abs() == old(Abs()).(
                         waiters := old(Abs()).waiters[pevent := old(Abs()).waiters[pevent]
                                                                 - {OSTCBTbl[ptcb].OSTCBPrio}])
    {
      ghost var d := Data();
      StopWaiting(d, ptcb, pevent);
      OSEventTbl[pevent] := NotWaiting(OSEventTbl[pevent], OSTCBTbl[ptcb]);
      assert Data() == d.(events := d.events[pevent := NotWaiting(d.events[pevent], d.tcbs[ptcb])]);
    }

    // -------------------------------------------------------------- scheduling

    /** OS_SchedNew. */
    method OS_SchedNew()
      requires Valid() && Abs().ready != {}
      modifies `OSPrioHighRdy
      ensures Data() == old(Data()) && OSPrioHighRdy == Highest(Abs().ready)
    {
      ghost var ready := Abs().ready;
      PrioMap.FindHighestIsLeast(OS_LOWEST_PRIO, OSRdyGrp, OSRdyTbl[..], Highest(ready));
      PrioMap.FindHighestIsMember(OS_LOWEST_PRIO, OSRdyGrp, OSRdyTbl[..]);
      PrioMap.FirstRow(OS_LOWEST_PRIO, OSRdyGrp, OSRdyTbl[..]);
      var y := PrioMap.FindBit(OS_LOWEST_PRIO, OSRdyGrp);
      assert OSRdyTbl[y] == OSRdyTbl[..][y];
      OSPrioHighRdy := PrioMap.PrioOf(OS_LOWEST_PRIO, y, PrioMap.FindBit(OS_LOWEST_PRIO, OSRdyTbl[y]));
    }

    /** `OSTCBHighRdy = OSTCBPrioTbl[OSPrioHighRdy]`. */
    method PointAtHighRdy()
      requires Valid() && OSPrioHighRdy in Abs().tasks
      modifies `OSTCBHighRdy
      ensures Data() == old(Data()) && HighRdyIsTask()
    {
      TaskIsActive(Data(), OSPrioHighRdy);
      OSTCBHighRdy := OSTCBPrioTbl[OSPrioHighRdy];
    }

    ghost predicate HighRdyIsTask()
      reads `OSPrioHighRdy, `OSTCBHighRdy, OSTCBPrioTbl
    {
      OSPrioHighRdy < OSTCBPrioTbl.Length && OSTCBHighRdy == OSTCBPrioTbl[OSPrioHighRdy] && OSTCBHighRdy.Some?
    }

    /** OS_TASK_SW and OSIntCtxSw: the saved context of OSTCBHighRdy becomes the running one. */
    method ContextSwitch()
      requires Valid() && HighRdyIsTask()
      modifies `OSTCBCur, `OSPrioCur
      ensures Valid() && Abs() == old(Abs()).(cur := OSPrioHighRdy)
      ensures OSPrioCur == OSPrioHighRdy && OSTCBCur == OSTCBHighRdy
    {
      SetCurrent(Data(), OSPrioHighRdy);
      ghost var d := Data();
      OSTCBCur, OSPrioCur := OSTCBHighRdy, OSPrioHighRdy;
      assert Data() == d.(sched := d.sched.(cur := d.prioTbl[OSPrioHighRdy], prioCur := OSPrioHighRdy));
    }

    /** `OSCtxSwCtr++`. */
    method CountSwitch()
      requires Valid()
      modifies `OSCtxSwCtr
      ensures Valid() && Abs() == old(Abs()).(switches := old(Abs()).switches + 1)
    {
      OSCtxSwCtr := OSCtxSwCtr + 1;
    }

    /** The steps OS_Sched and OSIntExit share once OSPrioHighRdy is known. */
    method SwitchToHighRdy()
      requires Valid() && OSPrioHighRdy in Abs().tasks
      modifies `OSTCBHighRdy, `OSTCBCur, `OSPrioCur, `OSCtxSwCtr
      ensures Valid() && Abs() == SwitchTo(old(Abs()), OSPrioHighRdy)
    {
      hide KernelData.Valid;
      if OSPrioHighRdy != OSPrioCur {
        PointAtHighRdy();
        CountSwitch();
        ContextSwitch();
      }
    }

    /** OS_Sched. */
    method OS_Sched()
      requires Valid() && Abs().ready != {} && Abs().ready <= Abs().tasks.Keys
      modifies `OSPrioHighRdy, `OSTCBHighRdy, `OSTCBCur, `OSPrioCur, `OSCtxSwCtr
      ensures Valid() && Abs() == Sched(old(Abs()))
    {
      if OSIntNesting == 0 {
        if OSLockNesting == 0 {
          OS_SchedNew();
          SwitchToHighRdy();
        }
      }
    }

    /** OSIntEnter. */
    method OSIntEnter()
      requires Valid()
      modifies `OSIntNesting
      ensures Valid() && Abs() == IntEnter(old(Abs()))
      ensures OSIntNesting == if OSRunning && old(OSIntNesting) < 255 then old(OSIntNesting) + 1 else old(OSIntNesting)
    {
      if OSRunning {
        if OSIntNesting < MAX_NESTING {
          OSIntNesting := OSIntNesting + 1;
        }
      }
    }

    /** `OSIntNesting--`, unless it is zero. */
    method CountExit()
      requires Valid()
      modifies `OSIntNesting
      ensures Valid() && OSIntNesting == if old(OSIntNesting) > 0 then old(OSIntNesting) - 1 else 0
      ensures Abs() == old(Abs()).(intNesting := OSIntNesting)
    {
      if OSIntNesting > 0 {
        OSIntNesting := OSIntNesting - 1;
      }
    }

    /** OSIntExit. */
    method OSIntExit()
      requires Valid() && Abs().ready != {} && Abs().ready <= Abs().tasks.Keys
      modifies `OSIntNesting, `OSPrioHighRdy, `OSTCBHighRdy, `OSTCBCur, `OSPrioCur, `OSCtxSwCtr
      ensures Valid() && Abs() == IntExit(old(Abs()))
      ensures OSIntNesting == if OSRunning && old(OSIntNesting) > 0 then old(OSIntNesting) - 1 else old(OSIntNesting)
    {
      hide KernelData.Valid;
      if OSRunning {
        CountExit();
        if OSIntNesting == 0 {
          if OSLockNesting == 0 {
            OS_SchedNew();
            SwitchToHighRdy();
          }
        }
      }
    }

    /** OSSchedLock. */
    method OSSchedLock()
      requires Valid()
      modifies `OSLockNesting
      ensures Valid() && Abs() == SchedLock(old(Abs()))
      ensures OSLockNesting == if OSRunning && OSIntNesting == 0 && old(OSLockNesting) < 255
                               then old(OSLockNesting) + 1 else old(OSLockNesting)
    {
      if OSRunning {
        if OSIntNesting == 0 {
          if OSLockNesting < MAX_NESTING {
            OSLockNesting := OSLockNesting + 1;
          }
        }
      }
    }

    /** `OSLockNesting--`. */
    method CountUnlock()
      requires Valid() && OSLockNesting > 0
      modifies `OSLockNesting
      ensures Valid() && OSLockNesting == old(OSLockNesting) - 1
      ensures Abs() == old(Abs()).(lockNesting := OSLockNesting)
    {
      OSLockNesting := OSLockNesting - 1;
    }

    /** OSSchedUnlock. */
    method OSSchedUnlock()
      requires Valid() && Abs().ready != {} && Abs().ready <= Abs().tasks.Keys
      modifies `OSLockNesting, `OSPrioHighRdy, `OSTCBHighRdy, `OSTCBCur, `OSPrioCur, `OSCtxSwCtr
      ensures Valid() && Abs() == SchedUnlock(old(Abs()))
      ensures OSLockNesting == if OSRunning && old(OSLockNesting) > 0 then old(OSLockNesting) - 1
                               else old(OSLockNesting)
    {
      hide KernelData.Valid;
      if OSRunning {
        if OSLockNesting > 0 {
          CountUnlock();
          if OSLockNesting == 0 {
            if OSIntNesting == 0 {
              OS_Sched();
            }
          }
        }
      }
    }

    /** OSStartHighRdy: multitasking has begun. */
    method OSStartHighRdy()
      requires Valid() && OSTCBCur.Some? && OSPrioCur < OSTCBPrioTbl.Length && OSTCBPrioTbl[OSPrioCur] == OSTCBCur
      modifies `OSRunning
      ensures Valid() && Abs() == old(Abs()).(running := true)
    {
      StartRunning(Data());
      ghost var d := Data();
      OSRunning := true;
      assert Data() == d.(sched := d.sched.(running := true));
    }

    /** OSStart. */
    method OSStart()
      requires Valid() && Abs().ready != {} && Abs().ready <= Abs().tasks.Keys
      modifies `OSPrioHighRdy, `OSTCBHighRdy, `OSTCBCur, `OSPrioCur, `OSRunning
      ensures Valid() && Abs() == Start(old(Abs())) && OSRunning
    {
      hide KernelData.Valid;
      if !OSRunning {
        OS_SchedNew();
        PointAtHighRdy();
        ContextSwitch();
        OSStartHighRdy();
      }
    }

    // -------------------------------------------------------------- events

    /** OS_EventTaskRemoveMulti. */
    method OS_EventTaskRemoveMulti(ptcb: nat, pevents_multi: seq<Ptr>)
      requires Valid() && ptcb in active && ptcb < OSTCBTbl.Length && EventList(OSEventTbl.Length, pevents_multi)
      modifies OSEventTbl
      ensures Valid() && Abs() == EventTaskRemove(old(Abs()), OSTCBTbl[ptcb].OSTCBPrio, Ids(pevents_multi))
    {
      hide KernelData.Valid;
      ghost var es := Ids(pevents_multi);
      ghost var p := OSTCBTbl[ptcb].OSTCBPrio;
      IdsOfList(OSEventTbl.Length, pevents_multi);
      var i := 0;
      assert Removed(Abs().waiters, p, es[..0]) == Abs().waiters;
      while pevents_multi[i] != None
        invariant i <= |es|
        invariant Valid() && Abs() == old(Abs()).(waiters := Removed(old(Abs()).waiters, p, es[..i]))
        decreases |es| - i
      {
        RemoveNext(ptcb, pevents_multi[i].value, old(Abs()), es, i);
        i := i + 1;
      }
      assert es[..i] == es;
    }

    /** One round of that loop. */
    method RemoveNext(ptcb: nat, pevent: nat, ghost s: State, ghost es: seq<EventId>, ghost i: nat)
      requires Valid() && ptcb in active && ptcb < OSTCBTbl.Length && i < |es| && pevent == es[i] < OSEventTbl.Length
      requires |s.waiters| == OSEventTbl.Length
      requires Abs() == s.(waiters := Removed(s.waiters, OSTCBTbl[ptcb].OSTCBPrio, es[..i]))
      modifies OSEventTbl
      ensures Valid() && Abs() == s.(waiters := Removed(s.waiters, OSTCBTbl[ptcb].OSTCBPrio, es[..i + 1]))
    {
      RemovedOneMore(s.waiters, OSTCBTbl[ptcb].OSTCBPrio, es, i);
      OS_EventTaskRemove(ptcb, pevent);
    }

    /** OS_EventTaskWait. */
    method OS_EventTaskWait(pevent: nat)
      requires Valid() && OSRunning && pevent < OSEventTbl.Length
      modifies `OSRdyGrp, OSRdyTbl, OSTCBTbl, OSEventTbl
      ensures Valid() && old(Abs()).cur in old(Abs()).tasks && Abs() == EventTaskWait(old(Abs()), pevent)
    {
      hide KernelData.Valid;
      CurrentIsActive(Data());
      ghost var s := Abs();
      PutTcb(OSTCBCur.value, OSTCBTbl[OSTCBCur.value].(OSTCBEventPtr := Some(pevent)));
      WaitForOne(pevent);
      assert Abs().tasks == s.tasks[s.cur := s.tasks[s.cur].(event := Some(pevent))];
    }

    /** Put the current task into one wait list and take it out of the ready list. */
    method WaitForOne(pevent: nat)
      requires Valid() && OSTCBCur.Some? && OSTCBCur.value in active && OSTCBCur.value < OSTCBTbl.Length
      requires pevent < OSEventTbl.Length
      modifies `OSRdyGrp, OSRdyTbl, OSEventTbl
      ensures Valid()
      ensures var p := OSTCBTbl[OSTCBCur.value].OSTCBPrio;
              Abs() == old(Abs()).(waiters := Added(old(Abs()).waiters, p, [pevent]), ready := old(Abs()).ready - {p})
    {
      hide KernelData.Valid;
      AddedOne(Abs().waiters, OSTCBTbl[OSTCBCur.value].OSTCBPrio, pevent);
      AddWaiter(OSTCBCur.value, pevent);
      MakeUnready(OSTCBCur.value);
    }

    /** OS_EventTaskWaitMulti. */
    method OS_EventTaskWaitMulti(pevents_wait: seq<Ptr>)
      requires Valid() && OSRunning && EventList(OSEventTbl.Length, pevents_wait)
      modifies `OSRdyGrp, OSRdyTbl, OSTCBTbl, OSEventTbl
      ensures Valid() && old(Abs()).cur in old(Abs()).tasks
      ensures Abs() == EventTaskWaitMulti(old(Abs()), Ids(pevents_wait))
      ensures SameHoldings(old(OSEventTbl[..]), OSEventTbl[..])
      ensures OSTCBCur.Some? && OSTCBCur.value < OSTCBTbl.Length
      ensures OSTCBTbl[OSTCBCur.value]
           == old(OSTCBTbl[..])[OSTCBCur.value].(OSTCBEventPtr := None, OSTCBEventMultiPtr := Some(pevents_wait))
    {
      hide KernelData.Valid;
      CurrentIsActive(Data());
      ghost var s := Abs();
      var t := OSTCBTbl[OSTCBCur.value];
      PutTcb(OSTCBCur.value, t.(OSTCBEventPtr := None, OSTCBEventMultiPtr := Some(pevents_wait)));
      WaitForAll(pevents_wait);
      assert Abs().tasks == s.tasks[s.cur := s.tasks[s.cur].(event := None, multi := Some(Ids(pevents_wait)))];
    }

    /** Put the current task into all the wait lists and take it out of the ready list. */
    method WaitForAll(pevents_wait: seq<Ptr>)
      requires Valid() && OSTCBCur.Some? && OSTCBCur.value in active && OSTCBCur.value < OSTCBTbl.Length
      requires EventList(OSEventTbl.Length, pevents_wait)
      modifies `OSRdyGrp, OSRdyTbl, OSEventTbl
      ensures Valid()
      ensures var p := OSTCBTbl[OSTCBCur.value].OSTCBPrio;
              Abs() == old(Abs()).(waiters := Added(old(Abs()).waiters, p, Ids(pevents_wait)),
                                   ready := old(Abs()).ready - {p})
      ensures SameHoldings(old(OSEventTbl[..]), OSEventTbl[..])
    {
      hide KernelData.Valid;
      AddToAll(OSTCBCur.value, pevents_wait);
      MakeUnready(OSTCBCur.value);
    }

    /** The loop of OS_EventTaskWaitMulti. */
    method AddToAll(ptcb: nat, pevents_wait: seq<Ptr>)
      requires Valid() && ptcb in active && ptcb < OSTCBTbl.Length && EventList(OSEventTbl.Length, pevents_wait)
      modifies OSEventTbl
      ensures Valid()
      ensures Abs() == old(Abs()).(waiters := Added(old(Abs()).waiters, OSTCBTbl[ptcb].OSTCBPrio, Ids(pevents_wait)))
      ensures SameHoldings(old(OSEventTbl[..]), OSEventTbl[..])
    {
      hide KernelData.Valid;
      ghost var es := Ids(pevents_wait);
      ghost var p := OSTCBTbl[ptcb].OSTCBPrio;
      IdsOfList(OSEventTbl.Length, pevents_wait);
      var i := 0;
      assert Added(Abs().waiters, p, es[..0]) == Abs().waiters;
      while pevents_wait[i] != None
        invariant i <= |es|
        invariant Valid() && Abs() == old(Abs()).(waiters := Added(old(Abs()).waiters, p, es[..i]))
        invariant SameHoldings(old(OSEventTbl[..]), OSEventTbl[..])
        decreases |es| - i
      {
        AddNext(ptcb, pevents_wait[i].value, old(Abs()), old(OSEventTbl[..]), es, i);
        i := i + 1;
      }
      assert es[..i] == es;
    }

    /** One round of that loop. */
    method AddNext(ptcb: nat, pevent: nat, ghost s: State, ghost events: seq<OS_EVENT>, ghost es: seq<EventId>,
                   ghost i: nat)
      requires Valid() && ptcb in active && ptcb < OSTCBTbl.Length && i < |es| && pevent == es[i] < OSEventTbl.Length
      requires |s.waiters| == OSEventTbl.Length && SameHoldings(events, OSEventTbl[..])
      requires Abs() == s.(waiters := Added(s.waiters, OSTCBTbl[ptcb].OSTCBPrio, es[..i]))
      modifies OSEventTbl
      ensures Valid() && Abs() == s.(waiters := Added(s.waiters, OSTCBTbl[ptcb].OSTCBPrio, es[..i + 1]))
      ensures SameHoldings(events, OSEventTbl[..])
    {
      ghost var now := OSEventTbl[..];
      AddedOneMore(s.waiters, OSTCBTbl[ptcb].OSTCBPrio, es, i);
      AddWaiter(ptcb, pevent);
      WaitingHolds(now, pevent, OSTCBTbl[ptcb]);
      SameHoldingsTwice(events, now, OSEventTbl[..]);
    }

    /** The priority that OS_EventTaskRdy reads from the event's wait list. */
    method FindWaiter(pevent: nat) returns (prio: nat)
      requires Valid() && pevent < OSEventTbl.Length && Abs().waiters[pevent] != {}
      ensures prio == Highest(Abs().waiters[pevent])
    {
      var ev := OSEventTbl[pevent];
      WaitListAt(OS_LOWEST_PRIO, OSEventTbl[..], OSEventTbl.Length, pevent);
      PrioMap.FindHighestIsLeast(OS_LOWEST_PRIO, ev.OSEventGrp, ev.OSEventTbl, Highest(Abs().waiters[pevent]));
      PrioMap.FindHighestIsMember(OS_LOWEST_PRIO, ev.OSEventGrp, ev.OSEventTbl);
      PrioMap.FirstRow(OS_LOWEST_PRIO, ev.OSEventGrp, ev.OSEventTbl);
      var y := PrioMap.FindBit(OS_LOWEST_PRIO, ev.OSEventGrp);
      prio := PrioMap.PrioOf(OS_LOWEST_PRIO, y, PrioMap.FindBit(OS_LOWEST_PRIO, ev.OSEventTbl[y]));
    }

    /** The most urgent waiter of an event and its TCB. */
    method FindWaiterTcb(pevent: nat) returns (prio: nat, ptcb: nat)
      requires Valid() && pevent < OSEventTbl.Length
      requires Abs().waiters[pevent] != {} && Abs().waiters[pevent] <= Abs().tasks.Keys
      ensures prio == Highest(Abs().waiters[pevent])
      ensures ptcb in active && ptcb < OSTCBTbl.Length && OSTCBTbl[ptcb].OSTCBPrio == prio
      ensures Abs().tasks[prio] == TaskOf(OSTCBTbl[ptcb]) && PointersOk(OSEventTbl.Length, OSTCBTbl[ptcb])
    {
      prio := FindWaiter(pevent);
      TaskIsActive(Data(), prio);
      ptcb := OSTCBPrioTbl[prio].value;
    }

    /** Assign the fields of a TCB, and make its task ready unless it is suspended. */
    method PutAndReady(ptcb: nat, t: OS_TCB)
      requires Valid() && ptcb in active && ptcb < OSTCBTbl.Length
      requires SamePlace(OSTCBTbl[ptcb], t) && PointersOk(OSEventTbl.Length, t)
      modifies `OSRdyGrp, OSRdyTbl, OSTCBTbl
      ensures OSTCBTbl[ptcb] == t
      ensures Valid() && Abs() == old(Abs()).(
                           tasks := old(Abs()).tasks[t.OSTCBPrio := TaskOf(t)],
                           ready := if Suspended(TaskOf(t)) then old(Abs()).ready else old(Abs()).ready + {t.OSTCBPrio})
    {
      PutTcb(ptcb, t);
      assert OSTCBTbl[ptcb] == OSTCBTbl[..][ptcb];
      if Suspend !in t.OSTCBStat {
        MakeReady(ptcb);
      }
    }

    /** Take a task whose event has come out of every wait list it is in. */
    method Unlink(ptcb: nat, pevent: nat)
      requires Valid() && ptcb in active && ptcb < OSTCBTbl.Length && pevent < OSEventTbl.Length
      requires PointersOk(OSEventTbl.Length, OSTCBTbl[ptcb])
      modifies OSTCBTbl, OSEventTbl
      ensures var p, t := old(OSTCBTbl[ptcb]).OSTCBPrio, TaskOf(old(OSTCBTbl[ptcb]));
              && Valid()
              && Abs() == old(Abs()).(
                            tasks := if t.multi.Some? then old(Abs()).tasks[p := t.(event := Some(pevent))]
                                     else old(Abs()).tasks,
                            waiters := Removed(old(Abs()).waiters, p,
                                               if t.multi.Some? then [pevent] + t.multi.value else [pevent]))
    {
      hide KernelData.Valid;
      RemovedOne(Abs().waiters, OSTCBTbl[ptcb].OSTCBPrio, pevent);
      OS_EventTaskRemove(ptcb, pevent);
      if OSTCBTbl[ptcb].OSTCBEventMultiPtr.Some? {
        RemovedTwice(old(Abs()).waiters, OSTCBTbl[ptcb].OSTCBPrio, [pevent],
                     Ids(OSTCBTbl[ptcb].OSTCBEventMultiPtr.value));
        OS_EventTaskRemoveMulti(ptcb, OSTCBTbl[ptcb].OSTCBEventMultiPtr.value);
        PutTcb(ptcb, OSTCBTbl[ptcb].(OSTCBEventPtr := Some(pevent)));
        assert OSTCBTbl[ptcb] == OSTCBTbl[..][ptcb];
      }
    }

    /** OS_EventTaskRdy. */
    method OS_EventTaskRdy(pevent: nat, pmsg: Msg, msk: set<Flag>, pendStat: PendStat) returns (prio: nat)
      requires Valid() && pevent < OSEventTbl.Length
      requires Abs().waiters[pevent] != {} && Abs().waiters[pevent] <= Abs().tasks.Keys
      modifies `OSRdyGrp, OSRdyTbl, OSTCBTbl, OSEventTbl
      ensures Valid() && prio == Highest(old(Abs()).waiters[pevent])
      ensures Abs() == EventTaskRdy(old(Abs()), pevent, pmsg, msk, pendStat)
    {
      hide KernelData.Valid;
      ghost var s := Abs();
      var ptcb;
      prio, ptcb := FindWaiterTcb(pevent);
      var t := OSTCBTbl[ptcb];
      TaskTold(t, pmsg, msk, pendStat);
      PutAndReady(ptcb, t.(OSTCBDly := 0, OSTCBMsg := pmsg, OSTCBStat := t.OSTCBStat - msk, OSTCBStatPend := pendStat));
      ghost var mid, told := Abs(), TaskOf(OSTCBTbl[ptcb]);
      assert told == s.tasks[prio].(dly := 0, msg := pmsg, stat := s.tasks[prio].stat - msk, statPend := pendStat);
      assert mid == s.(tasks := s.tasks[prio := told], ready := if Suspended(told) then s.ready else s.ready + {prio});
      Unlink(ptcb, pevent);
      RdyInTwoHalves(s, pevent, pmsg, msk, pendStat, prio, mid, Abs());
    }

    // -------------------------------------------------------------- pending on many events

    /** One case of the switch over the events of OSEventPendMulti: take a message if there is one. */
    method TakeOne(pevent: nat) returns (got: bool, msg: Msg)
      requires pevent < OSEventTbl.Length && StoresOk(OSEventTbl[..]) && CanPendOn(OSEventTbl[pevent].OSEventType)
      modifies OSEventTbl
      ensures Round(old(OSEventTbl[..]), OSEventTbl[..], pevent, got, msg)
    {
      var ev := OSEventTbl[pevent];
      ev, got, msg := TakeFrom(ev);
      OneTakenStores(OSEventTbl[..], pevent, ev, got, msg);
      OSEventTbl[pevent] := ev;
      assert OSEventTbl[..] == old(OSEventTbl[..])[pevent := ev];
    }

    /** The case itself. */
    static method TakeFrom(ev: OS_EVENT) returns (ev': OS_EVENT, got: bool, msg: Msg)
      requires StoreOk(ev) && CanPendOn(ev.OSEventType)
      ensures OneTaken(ev, ev', got, msg)
    {
      ev', got, msg := ev, false, NULL_MSG;
      match ev.OSEventType {
        case TypeSem =>
          if ev.OSEventCnt > 0 {
            ev' := ev.(OSEventCnt := ev.OSEventCnt - 1);
            got := true;
          }
        case TypeMbox =>
          if ev.OSEventPtr != NULL_MSG {
            msg := ev.OSEventPtr;
            ev' := ev.(OSEventPtr := NULL_MSG);
            got := true;
          }
        case TypeQ =>
          var pq := ev.OSEventQ;
          if pq.OSQEntries > 0 {
            DequeuedIsRest(pq);
            msg := pq.store[pq.OSQOut];
            ev' := ev.(OSEventQ := Dequeued(pq));
            got := true;
          }
      }
    }

    /** The loop of OSEventPendMulti over the events that may already be available. */
    method TakeAvailable(pevents_pend: seq<Ptr>, pevents_rdy: array<Ptr>, pmsgs_rdy: array<Msg>)
      returns (events_rdy_nbr: nat, events_stat: set<Flag>)
      requires StoresOk(OSEventTbl[..])
      requires EventList(OSEventTbl.Length, pevents_pend) && CanPendOnAll(OSEventTbl[..], Ids(pevents_pend))
      requires pevents_rdy.Length > |Ids(pevents_pend)| && pmsgs_rdy.Length >= |Ids(pevents_pend)|
      modifies OSEventTbl, pevents_rdy, pmsgs_rdy
      ensures Progress(old(OSEventTbl[..]), OSEventTbl[..], Ids(pevents_pend),
                       Loop(|Ids(pevents_pend)|, events_rdy_nbr, events_stat), pevents_rdy[..], pmsgs_rdy[..])
      ensures events_rdy_nbr <= |Ids(pevents_pend)|
    {
      hide Progress;
      ghost var before := OSEventTbl[..];
      AllListed(|before|, pevents_pend);
      ProgressStarts(before, Ids(pevents_pend), pevents_rdy[..], pmsgs_rdy[..]);
      Entry(before, pevents_pend, 0);
      events_rdy_nbr, events_stat := 0, {};
      var i := 0;
      while pevents_pend[i] != None
        invariant i < |pevents_pend| && i <= |Ids(pevents_pend)| && events_rdy_nbr <= i
        invariant pevents_pend[i] == None ==> i == |Ids(pevents_pend)|
        invariant Progress(before, OSEventTbl[..], Ids(pevents_pend), Loop(i, events_rdy_nbr, events_stat),
                           pevents_rdy[..], pmsgs_rdy[..])
        decreases |pevents_pend| - i
      {
        events_rdy_nbr, events_stat :=
          TakeNext(pevents_pend, pevents_rdy, pmsgs_rdy, events_rdy_nbr, events_stat, before, i);
        i := i + 1;
      }
    }

    /** One entry of the list. */
    method TakeNext(pevents_pend: seq<Ptr>, pevents_rdy: array<Ptr>, pmsgs_rdy: array<Msg>, nbr: nat, stat: set<Flag>,
                    ghost before: seq<OS_EVENT>, i: nat) returns (nbr': nat, stat': set<Flag>)
      requires |before| == OSEventTbl.Length && EventList(|before|, pevents_pend)
      requires CanPendOnAll(before, Ids(pevents_pend))
      requires pevents_rdy.Length > |Ids(pevents_pend)| && pmsgs_rdy.Length >= |Ids(pevents_pend)|
      requires i < |pevents_pend| && pevents_pend[i] != None && nbr <= i <= |Ids(pevents_pend)|
      requires Progress(before, OSEventTbl[..], Ids(pevents_pend), Loop(i, nbr, stat), pevents_rdy[..], pmsgs_rdy[..])
      modifies OSEventTbl, pevents_rdy, pmsgs_rdy
      ensures i + 1 < |pevents_pend| && nbr' <= i + 1 <= |Ids(pevents_pend)|
      ensures pevents_pend[i + 1] == None ==> i + 1 == |Ids(pevents_pend)|
      ensures Progress(before, OSEventTbl[..], Ids(pevents_pend), Loop(i + 1, nbr', stat'),
                       pevents_rdy[..], pmsgs_rdy[..])
    {
      hide Progress;
      Entry(before, pevents_pend, i);
      nbr', stat' := TakeRound(pevents_pend[i].value, pevents_rdy, pmsgs_rdy, nbr, stat, before, Ids(pevents_pend), i);
      Entry(before, pevents_pend, i + 1);
    }

    /** One round of that loop. */
    method TakeRound(pevent: nat, pevents_rdy: array<Ptr>, pmsgs_rdy: array<Msg>, nbr: nat, stat: set<Flag>,
                     ghost before: seq<OS_EVENT>, ghost es: seq<EventId>, ghost i: nat)
      returns (nbr': nat, stat': set<Flag>)
      requires Progress(before, OSEventTbl[..], es, Loop(i, nbr, stat), pevents_rdy[..], pmsgs_rdy[..])
      requires i < |es| && pevent == es[i] < OSEventTbl.Length && CanPendOn(before[pevent].OSEventType)
      requires nbr < pevents_rdy.Length && nbr < pmsgs_rdy.Length
      modifies OSEventTbl, pevents_rdy, pmsgs_rdy
      ensures Progress(before, OSEventTbl[..], es, Loop(i + 1, nbr', stat'), pevents_rdy[..], pmsgs_rdy[..])
      ensures nbr' <= nbr + 1
    {
      hide EventsAt, AnswersAt, Told;
      var got, msg, flag := TakeEntry(pevent, before, es, i);
      ghost var events := OSEventTbl[..];
      nbr' := StoreAnswer(pevents_rdy, pmsgs_rdy, nbr, pevent, got, msg, Stores(before), es, i);
      assert OSEventTbl[..] == events;
      stat' := if got then stat else stat + {flag};
      RoundDone(before, events, es, Loop(i, nbr, stat), got, msg, flag, pevents_rdy[..], pmsgs_rdy[..],
                Loop(i + 1, nbr', stat'));
    }

    /** One round of that loop: the event. */
    method TakeEntry(pevent: nat, ghost before: seq<OS_EVENT>, ghost es: seq<EventId>, ghost i: nat)
      returns (got: bool, msg: Msg, flag: Flag)
      requires EventsAt(before, OSEventTbl[..], es, i)
      requires i < |es| && pevent == es[i] < OSEventTbl.Length && CanPendOn(before[pevent].OSEventType)
      modifies OSEventTbl
      ensures EventsAt(before, OSEventTbl[..], es, i + 1) && Told(Stores(before), es, i, got, msg)
      ensures flag == FlagOf(before[pevent].OSEventType)
    {
      ghost var events := OSEventTbl[..];
      flag := FlagOf(OSEventTbl[pevent].OSEventType);
      got, msg := TakeOne(pevent);
      EventsStep(before, events, OSEventTbl[..], es, i, got, msg);
    }

    /** One round of that loop: the answers. */
    static method StoreAnswer(pevents_rdy: array<Ptr>, pmsgs_rdy: array<Msg>, nbr: nat, pevent: nat, got: bool,
                              msg: Msg,
                              ghost stores: seq<seq<Msg>>, ghost es: seq<EventId>, ghost i: nat) returns (nbr': nat)
      requires nbr < pevents_rdy.Length && nbr < pmsgs_rdy.Length
      requires AnswersAt(stores, es, i, nbr, pevents_rdy[..], pmsgs_rdy[..]) && Told(stores, es, i, got, msg)
      requires pevent == es[i]
      modifies pevents_rdy, pmsgs_rdy
      ensures AnswersAt(stores, es, i + 1, nbr', pevents_rdy[..], pmsgs_rdy[..]) && nbr' == if got then nbr + 1 else nbr
    {
      AnswersStep(stores, es, i, nbr, pevents_rdy[..], pmsgs_rdy[..]);
      nbr' := nbr;
      if got {
        pevents_rdy[nbr], pmsgs_rdy[nbr] := Some(pevent), msg;
        assert pevents_rdy[..] == old(pevents_rdy[..])[nbr := Some(pevent)];
        assert pmsgs_rdy[..] == old(pmsgs_rdy[..])[nbr := msg];
        nbr' := nbr + 1;
      }
    }

    /** The loop of OSEventPendMulti that checks the types of the events. */
    method TypesAreValid(pevents_pend: seq<Ptr>) returns (valid: bool)
      requires EventList(OSEventTbl.Length, pevents_pend)
      ensures valid == CanPendOnAll(OSEventTbl[..], Ids(pevents_pend))
    {
      ghost var es := Ids(pevents_pend);
      IdsOfList(OSEventTbl.Length, pevents_pend);
      var i := 0;
      while pevents_pend[i] != None
        invariant i <= |es| && CanPendOnFirst(OSEventTbl[..], es, i)
        decreases |es| - i
      {
        if !CanPendOn(OSEventTbl[pevents_pend[i].value].OSEventType) {
          if CanPendOnAll(OSEventTbl[..], es) { CanPendOnAt(OSEventTbl[..], es, |es|, i); }
          return false;
        }
        i := i + 1;
      }
      valid := true;
    }

    /** The blocking half of OSEventPendMulti. */
    method StartPend(pevents_pend: seq<Ptr>, events_stat: set<Flag>, timeout: nat)
      requires Valid() && OSRunning && EventList(OSEventTbl.Length, pevents_pend)
      modifies `OSRdyGrp, OSRdyTbl, OSTCBTbl, OSEventTbl
      ensures Valid() && old(Abs()).cur in old(Abs()).tasks && SameHoldings(old(OSEventTbl[..]), OSEventTbl[..])
      ensures Abs() == EventTaskWaitMulti(PrepareToPend(old(Abs()), events_stat + {Multi}, timeout), Ids(pevents_pend))
      ensures OSTCBCur.Some? && OSTCBCur.value < OSTCBTbl.Length
      ensures var was := old(OSTCBTbl[..])[OSTCBCur.value];
              OSTCBTbl[OSTCBCur.value] == was.(
                OSTCBStat := was.OSTCBStat + (events_stat + {Multi}), OSTCBStatPend := PendOk, OSTCBDly := timeout,
                OSTCBEventPtr := None, OSTCBEventMultiPtr := Some(pevents_pend))
    {
      hide KernelData.Valid;
      CurrentIsActive(Data());
      var t := OSTCBTbl[OSTCBCur.value];
      t := t.(OSTCBStat := t.OSTCBStat + (events_stat + {Multi}), OSTCBStatPend := PendOk, OSTCBDly := timeout);
      PutTcb(OSTCBCur.value, t);
      OS_EventTaskWaitMulti(pevents_pend);
    }

    /** The caller's arrays have room for every event of the list and are not the kernel's own. */
    ghost predicate AnswersFit(pevents_pend: seq<Ptr>, pevents_rdy: array<Ptr>, pmsgs_rdy: array<Msg>) {
      && pevents_rdy.Length > |Ids(pevents_pend)|
      && pmsgs_rdy.Length >= |Ids(pevents_pend)|
      && pevents_rdy != OSTCBPrioTbl && pmsgs_rdy != OSRdyTbl
    }

    /** OSEventPendMulti once its arguments and its caller have been checked, up to its call of OS_Sched. */
    method PendOnAll(pevents_pend: seq<Ptr>, pevents_rdy: array<Ptr>, pmsgs_rdy: array<Msg>, timeout: nat)
      returns (r: PendCall)
      requires Valid() && OSRunning && StoresOk(OSEventTbl[..])
      requires EventList(OSEventTbl.Length, pevents_pend) && CanPendOnAll(OSEventTbl[..], Ids(pevents_pend))
      requires AnswersFit(pevents_pend, pevents_rdy, pmsgs_rdy)
      modifies `OSRdyGrp, OSRdyTbl, OSTCBTbl, OSEventTbl, pevents_rdy, pmsgs_rdy
      ensures Valid() && old(Abs()).cur in old(Abs()).tasks && Listed(OSEventTbl.Length, Ids(pevents_pend))
      ensures TookAvailable(old(OSEventTbl[..]), OSEventTbl[..], Ids(pevents_pend), pevents_rdy[..], pmsgs_rdy[..])
      ensures var now := old(AvailableNow(OSEventTbl[..], Ids(pevents_pend)));
              && r == (if now != [] then Returns(|now|, OS_ERR_NONE) else Waits)
              && Abs() == if now != [] then old(Abs())
                          else KernelRuns.Blocked(old(Abs()), old(TypesOf(OSEventTbl[..])), Ids(pevents_pend), true,
                                                  timeout)
      ensures r.Waits? ==>
                && OSTCBCur.Some? && OSTCBCur.value < OSTCBTbl.Length
                && IsWaiting(old(OSTCBTbl[..])[OSTCBCur.value], OSTCBTbl[OSTCBCur.value], old(OSEventTbl[..]),
                             pevents_pend, timeout)
    {
      hide KernelData.Valid, TookAvailable, SameHoldings, IsWaiting;
      AllListed(OSEventTbl.Length, pevents_pend);
      CurrentIsActive(Data());
      var nbr, stat := TakeAll(pevents_pend, pevents_rdy, pmsgs_rdy);
      if nbr > 0 {
        return Returns(nbr, OS_ERR_NONE);
      }
      ghost var events, pevents, pmsgs, tcbs := OSEventTbl[..], pevents_rdy[..], pmsgs_rdy[..], OSTCBTbl[..];
      assert tcbs == old(OSTCBTbl[..]);
      StartPend(pevents_pend, stat, timeout);
      IsWaitingNow(tcbs[OSTCBCur.value], OSTCBTbl[OSTCBCur.value], old(OSEventTbl[..]), pevents_pend, stat, timeout);
      assert pevents_rdy[..] == pevents && pmsgs_rdy[..] == pmsgs;
      TookAvailableKept(old(OSEventTbl[..]), events, OSEventTbl[..], Ids(pevents_pend), pevents, pmsgs);
      r := Waits;
    }

    /** Take what is available and end the array of events: the scheduler sees nothing of it. */
    method TakeAll(pevents_pend: seq<Ptr>, pevents_rdy: array<Ptr>, pmsgs_rdy: array<Msg>)
      returns (nbr: nat, stat: set<Flag>)
      requires Valid() && StoresOk(OSEventTbl[..])
      requires EventList(OSEventTbl.Length, pevents_pend) && CanPendOnAll(OSEventTbl[..], Ids(pevents_pend))
      requires AnswersFit(pevents_pend, pevents_rdy, pmsgs_rdy)
      modifies OSEventTbl, pevents_rdy, pmsgs_rdy
      ensures Valid() && Abs() == old(Abs()) && Listed(OSEventTbl.Length, Ids(pevents_pend))
      ensures TookAvailable(old(OSEventTbl[..]), OSEventTbl[..], Ids(pevents_pend), pevents_rdy[..], pmsgs_rdy[..])
      ensures nbr == |old(AvailableNow(OSEventTbl[..], Ids(pevents_pend)))|
      ensures nbr == 0 ==> stat == KernelRuns.Flags(old(TypesOf(OSEventTbl[..])), Ids(pevents_pend))
    {
      ghost var d := Data();
      AllListed(OSEventTbl.Length, pevents_pend);
      nbr, stat := TakeAndEnd(pevents_pend, pevents_rdy, pmsgs_rdy);
      StoresDoNotMatter(d, Data());
    }

    method TakeAndEnd(pevents_pend: seq<Ptr>, pevents_rdy: array<Ptr>, pmsgs_rdy: array<Msg>)
      returns (nbr: nat, stat: set<Flag>)
      requires StoresOk(OSEventTbl[..]) && Listed(OSEventTbl.Length, Ids(pevents_pend))
      requires EventList(OSEventTbl.Length, pevents_pend) && CanPendOnAll(OSEventTbl[..], Ids(pevents_pend))
      requires AnswersFit(pevents_pend, pevents_rdy, pmsgs_rdy)
      modifies OSEventTbl, pevents_rdy, pmsgs_rdy
      ensures SameButStores(old(OSEventTbl[..]), OSEventTbl[..])
      ensures TookAvailable(old(OSEventTbl[..]), OSEventTbl[..], Ids(pevents_pend), pevents_rdy[..], pmsgs_rdy[..])
      ensures nbr == |old(AvailableNow(OSEventTbl[..], Ids(pevents_pend)))|
      ensures nbr == 0 ==> stat == KernelRuns.Flags(old(TypesOf(OSEventTbl[..])), Ids(pevents_pend))
    {
      ghost var before := OSEventTbl[..];
      nbr, stat := TakeAvailable(pevents_pend, pevents_rdy, pmsgs_rdy);
      ghost var events, pevents, pmsgs := OSEventTbl[..], pevents_rdy[..], pmsgs_rdy[..];
      TookAll(before, events, Ids(pevents_pend), nbr, stat, pevents, pmsgs);
      pevents_rdy[nbr] := None;
      assert OSEventTbl[..] == events && pevents_rdy[..] == pevents[nbr := None] && pmsgs_rdy[..] == pmsgs;
    }

    /** OSEventPendMulti up to its call of OS_Sched. */
    method OSEventPendMulti(pevents_pend: seq<Ptr>, pevents_rdy: array<Ptr>, pmsgs_rdy: array<Msg>,
                            timeout: nat) returns (r: PendCall)
      requires Valid() && OSRunning && StoresOk(OSEventTbl[..])
      requires EventList(OSEventTbl.Length, pevents_pend) && AnswersFit(pevents_pend, pevents_rdy, pmsgs_rdy)
      modifies `OSRdyGrp, OSRdyTbl, OSTCBTbl, OSEventTbl, pevents_rdy, pmsgs_rdy
      ensures Valid() && old(Abs()).cur in old(Abs()).tasks && Listed(OSEventTbl.Length, Ids(pevents_pend))
      ensures r.Returns? && r.perr != OS_ERR_NONE ==>
                r.events_rdy_nbr == 0 && Data() == old(Data()) && pevents_rdy[0] == None
      ensures r == Returns(0, OS_ERR_EVENT_TYPE) <==> !CanPendOnAll(old(OSEventTbl[..]), Ids(pevents_pend))
      ensures r == Returns(0, OS_ERR_PEND_ISR) <==>
              CanPendOnAll(old(OSEventTbl[..]), Ids(pevents_pend)) && OSIntNesting > 0
      ensures r == Returns(0, OS_ERR_PEND_LOCKED) <==>
              CanPendOnAll(old(OSEventTbl[..]), Ids(pevents_pend)) && OSIntNesting == 0 && OSLockNesting > 0
      ensures r.Waits? || r.perr == OS_ERR_NONE ==>
                TookAvailable(old(OSEventTbl[..]), OSEventTbl[..], Ids(pevents_pend), pevents_rdy[..], pmsgs_rdy[..])
      ensures var now := old(AvailableNow(OSEventTbl[..], Ids(pevents_pend)));
              && (r.Returns? && r.perr == OS_ERR_NONE ==> now != [] && r.events_rdy_nbr == |now| && Abs() == old(Abs()))
              && (r.Waits? ==>
                    && now == []
                    && OSTCBCur.Some? && OSTCBCur.value < OSTCBTbl.Length
                    && IsWaiting(old(OSTCBTbl[..])[OSTCBCur.value], OSTCBTbl[OSTCBCur.value], old(OSEventTbl[..]),
                                 pevents_pend, timeout)
                    && Abs() == KernelRuns.Blocked(old(Abs()), old(TypesOf(OSEventTbl[..])), Ids(pevents_pend), true,
                                                   timeout))
    {
      ghost var d := Data();
      AllListed(OSEventTbl.Length, pevents_pend);
      CurrentIsActive(Data());
      pevents_rdy[0] := None;
      assert Data() == d;
      assert OSTCBTbl[..] == old(OSTCBTbl[..]) && OSEventTbl[..] == old(OSEventTbl[..]);
      var valid := TypesAreValid(pevents_pend);
      if !valid {
        return Returns(0, OS_ERR_EVENT_TYPE);
      }
      if OSIntNesting > 0 {
        return Returns(0, OS_ERR_PEND_ISR);
      }
      if OSLockNesting > 0 {
        return Returns(0, OS_ERR_PEND_LOCKED);
      }
      r := PendOnAll(pevents_pend, pevents_rdy, pmsgs_rdy, timeout);
    }

    /** OSEventPendMulti once its call of OS_Sched has returned: what it answers. */
    method AnswerPend(pevents_rdy: array<Ptr>, pmsgs_rdy: array<Msg>, t: OS_TCB) returns (nbr: nat, perr: Err)
      requires pevents_rdy.Length >= 1 && pmsgs_rdy.Length >= 1 && (t.OSTCBEventPtr.Some? ==> pevents_rdy.Length >= 2)
      requires t.OSTCBEventPtr.Some? ==> t.OSTCBEventPtr.value < OSEventTbl.Length
      requires pevents_rdy[0] == None
      modifies pevents_rdy, pmsgs_rdy
      ensures AnswerIs(PendMultiOutcome(TaskOf(t)),
                       if t.OSTCBEventPtr.Some? then OSEventTbl[t.OSTCBEventPtr.value].OSEventType else TypeUnused,
                       old(pmsgs_rdy[0]), nbr, perr, pevents_rdy[..], pmsgs_rdy[..])
    {
      nbr := 0;
      var pendStat := t.OSTCBStatPend;
      if pendStat != PendTo {
        match t.OSTCBEventPtr {
          case Some(pevent) =>
            pevents_rdy[0], pevents_rdy[1] := Some(pevent), None;
            nbr := 1;
          case None =>
            pendStat := PendTo;
        }
      }
      match pendStat {
        case PendOk =>
          match OSEventTbl[t.OSTCBEventPtr.value].OSEventType {
            case TypeSem =>
              pmsgs_rdy[0] := NULL_MSG;
              perr := OS_ERR_NONE;
            case TypeMbox =>
              pmsgs_rdy[0] := t.OSTCBMsg;
              perr := OS_ERR_NONE;
            case TypeQ =>
              pmsgs_rdy[0] := t.OSTCBMsg;
              perr := OS_ERR_NONE;
            case _ =>
              perr := OS_ERR_EVENT_TYPE;
          }
        case PendAbort =>
          pmsgs_rdy[0] := NULL_MSG;
          perr := OS_ERR_PEND_ABORT;
        case PendTo =>
          pmsgs_rdy[0] := NULL_MSG;
          perr := OS_ERR_TIMEOUT;
      }
    }

    /** OSEventPendMulti once its call of OS_Sched has returned: leaving the wait lists and cleaning up the TCB. */
    method FinishPend(pevents_pend: seq<Ptr>)
      requires Valid() && OSRunning && EventList(OSEventTbl.Length, pevents_pend)
      modifies OSTCBTbl, OSEventTbl
      ensures Valid() && old(Abs()).cur in old(Abs()).tasks && Abs() == PendMultiFinish(old(Abs()), Ids(pevents_pend))
    {
      LeaveLists(pevents_pend);
      CleanUp();
    }

    /** A pend that has not been answered leaves the wait lists of its events. */
    method LeaveLists(pevents_pend: seq<Ptr>)
      requires Valid() && OSRunning && EventList(OSEventTbl.Length, pevents_pend)
      modifies OSEventTbl
      ensures Valid() && old(Abs()).cur in old(Abs()).tasks
      ensures Abs() == if PendMultiOutcome(old(Abs()).tasks[old(Abs()).cur]) == TimedOut
                       then EventTaskRemove(old(Abs()), old(Abs()).cur, Ids(pevents_pend)) else old(Abs())
    {
      hide KernelData.Valid;
      CurrentIsActive(Data());
      var t := OSTCBTbl[OSTCBCur.value];
      if t.OSTCBStatPend == PendTo || t.OSTCBEventPtr == None {
        OS_EventTaskRemoveMulti(OSTCBCur.value, pevents_pend);
      }
    }

    /** The current TCB after a pend on many events. */
    method CleanUp()
      requires Valid() && OSRunning
      modifies OSTCBTbl
      ensures Valid() && old(Abs()).cur in old(Abs()).tasks
      ensures var t := old(Abs()).tasks[old(Abs()).cur];
              Abs() == old(Abs()).(
                         tasks := old(Abs()).tasks[old(Abs()).cur := Task(t.dly, {}, PendOk, None, None, NULL_MSG)])
    {
      CurrentIsActive(Data());
      var t := OSTCBTbl[OSTCBCur.value];
      t := t.(OSTCBStat := {}, OSTCBStatPend := PendOk, OSTCBEventPtr := None, OSTCBEventMultiPtr := None,
              OSTCBMsg := NULL_MSG);
      PutTcb(OSTCBCur.value, t);
    }

    /** OSEventPendMulti after its call of OS_Sched. */
    method OSEventPendMultiResumed(pevents_pend: seq<Ptr>, pevents_rdy: array<Ptr>, pmsgs_rdy: array<Msg>)
      returns (nbr: nat, perr: Err)
      requires Valid() && OSRunning && EventList(OSEventTbl.Length, pevents_pend)
      requires pevents_rdy.Length >= 1 && pmsgs_rdy.Length >= 1 && pevents_rdy[0] == None
      requires Abs().cur in Abs().tasks && (Abs().tasks[Abs().cur].event.Some? ==> pevents_rdy.Length >= 2)
      requires pevents_rdy != OSTCBPrioTbl && pmsgs_rdy != OSRdyTbl
      modifies OSTCBTbl, OSEventTbl, pevents_rdy, pmsgs_rdy
      ensures var t := old(Abs()).tasks[old(Abs()).cur];
              && (t.event.Some? ==> t.event.value < OSEventTbl.Length)
              && AnswerIs(PendMultiOutcome(t),
                          if t.event.Some? then old(OSEventTbl[..])[t.event.value].OSEventType else TypeUnused,
                          old(pmsgs_rdy[0]), nbr, perr, pevents_rdy[..], pmsgs_rdy[..])
      ensures Valid()
      ensures Abs() == if perr == OS_ERR_EVENT_TYPE then old(Abs()) else PendMultiFinish(old(Abs()), Ids(pevents_pend))
    {
      hide KernelData.Valid;
      ghost var d := Data();
      CurrentIsActive(d);
      nbr, perr := AnswerPend(pevents_rdy, pmsgs_rdy, OSTCBTbl[OSTCBCur.value]);
      assert Data() == d;
      if perr != OS_ERR_EVENT_TYPE {
        FinishPend(pevents_pend);
      }
    }

    // -------------------------------------------------------------- time

    /** The end of a delay or of a timeout. */
    method ExpireTcb(ptcb: nat)
      requires Valid() && ptcb in active && ptcb < OSTCBTbl.Length && PointersOk(OSEventTbl.Length, OSTCBTbl[ptcb])
      modifies `OSRdyGrp, OSRdyTbl, OSTCBTbl
      ensures Valid()
      ensures var p, t := old(OSTCBTbl[ptcb].OSTCBPrio), TaskOf(old(OSTCBTbl[ptcb]));
              Abs() == old(Abs()).(tasks := old(Abs()).tasks[p := Expire(t)],
                                   ready := if Suspended(t) then old(Abs()).ready else old(Abs()).ready + {p})
    {
      hide KernelData.Valid, KernelData.Abs;
      var t := OSTCBTbl[ptcb].(OSTCBDly := 0);
      if t.OSTCBStat * PEND_ANY != {} {
        t := t.(OSTCBStat := t.OSTCBStat - PEND_ANY, OSTCBStatPend := PendTo);
      } else {
        t := t.(OSTCBStatPend := PendOk);
      }
      PutAndReady(ptcb, t);
    }

    /** What OSTimeTick does to one TCB, in one critical section. */
    method TickTcb(ptcb: nat)
      requires Valid() && ptcb in active && ptcb < OSTCBTbl.Length && PointersOk(OSEventTbl.Length, OSTCBTbl[ptcb])
      requires OSTCBTbl[ptcb].OSTCBPrio in Abs().tasks
      requires Abs().tasks[OSTCBTbl[ptcb].OSTCBPrio] == TaskOf(OSTCBTbl[ptcb])
      modifies `OSRdyGrp, OSRdyTbl, OSTCBTbl
      ensures Valid() && Abs() == TickOne(old(Abs()), old(OSTCBTbl[ptcb].OSTCBPrio))
    {
      ghost var s, p := Abs(), OSTCBTbl[ptcb].OSTCBPrio;
      var t := OSTCBTbl[ptcb];
      if t.OSTCBDly != 0 {
        if t.OSTCBDly - 1 == 0 {
          ExpireTcb(ptcb);
          TickExpires(s, p);
        } else {
          var t' := t.(OSTCBDly := t.OSTCBDly - 1);
          TickCounts(s, p, TaskOf(t'));
          PutTcb(ptcb, t');
        }
      } else {
        TickPasses(s, p);
      }
    }

    /** OSTimeTick. */
    method OSTimeTick()
      requires Valid()
      modifies `OSTime, `OSTickStepState, `OSRdyGrp, OSRdyTbl, OSTCBTbl
      ensures Valid() && Abs() == TimeTick(old(Abs()))
      ensures OSTime == (old(OSTime) + 1) % 0x1_0000_0000
    {
      OSTime := (OSTime + 1) % 0x1_0000_0000;
      assert Data() == old(Data());
      if OSRunning {
        var step := TickStepIsDue();
        if step {
          TickEveryTcb();
        }
      }
    }

    /** Whether OSTickStepState lets this tick be processed. */
    method TickStepIsDue() returns (step: bool)
      requires Valid() && OSRunning
      modifies `OSTickStepState
      ensures Valid() && step == TickIsProcessed(old(Abs()))
      ensures !step ==> Abs() == old(Abs())
      ensures step ==> TickSome(Abs(), Abs().tasks.Keys - {OS_LOWEST_PRIO}) == TimeTick(old(Abs()))
    {
      step := true;
      ghost var s := Abs();
      match OSTickStepState {
        case StepDisabled =>
        case StepWait =>
          step := false;
        case StepOnce =>
          OSTickStepState := StepWait;
      }
      assert Abs() == s.(stepState := OSTickStepState);
      if step { TickAll(s, OSTickStepState); }
    }

    /** The loop of OSTimeTick: from the head of the list up to the idle task. */
    method TickEveryTcb()
      requires Valid() && OSRunning
      modifies `OSRdyGrp, OSRdyTbl, OSTCBTbl
      ensures Valid() && Abs() == TickSome(old(Abs()), old(Abs()).tasks.Keys - {OS_LOWEST_PRIO})
    {
      hide KernelData.Valid, KernelData.Abs;
      ghost var s: State, k: nat := Abs(), 0;
      TickStarts(Data());
      var ptcb: nat := OSTCBList.value;
      while OSTCBTbl[ptcb].OSTCBPrio != OS_LOWEST_PRIO
        invariant k < |active| && ptcb < OSTCBTbl.Length && TickAt(Data(), s, ptcb, k)
        decreases |active| - k
      {
        ptcb := TickAndNext(s, ptcb, k);
        k := k + 1;
      }
      TickEnds(Data(), s, ptcb, k);
    }

    /** One round of the loop of OSTimeTick. */
    method TickAndNext(ghost s: State, ptcb: nat, ghost k: nat) returns (next: nat)
      requires k < |active| && ptcb < OSTCBTbl.Length && TickAt(Data(), s, ptcb, k)
      requires OSTCBTbl[ptcb].OSTCBPrio != OS_LOWEST_PRIO
      modifies `OSRdyGrp, OSRdyTbl, OSTCBTbl
      ensures k + 1 < |active| && next < OSTCBTbl.Length && TickAt(Data(), s, next, k + 1)
    {
      NextTcb(Data(), k);
      TickOneMore(s, Done(OSTCBPrioTbl[..], active, k), OSTCBTbl[ptcb].OSTCBPrio);
      TickTcb(ptcb);
      NextInList(Data(), k);
      next := OSTCBTbl[ptcb].OSTCBNext.value;
    }

    /** OSTimeDly up to its call of OS_Sched. */
    method OSTimeDly(ticks: nat)
      requires Valid() && OSRunning
      modifies `OSRdyGrp, OSRdyTbl, OSTCBTbl
      ensures Valid() && old(Abs()).cur in old(Abs()).tasks && Abs() == TimeDly(old(Abs()), ticks)
    {
      hide KernelData.Valid;
      CurrentIsActive(Data());
      if OSIntNesting == 0 && ticks > 0 {
        MakeUnready(OSTCBCur.value);
        PutTcb(OSTCBCur.value, OSTCBTbl[OSTCBCur.value].(OSTCBDly := ticks));
      }
    }

    /** OSTimeDlyResume up to its call of OS_Sched; true is OS_ERR_NONE. */
    method OSTimeDlyResume(prio: nat) returns (ok: bool)
      requires Valid()
      modifies `OSRdyGrp, OSRdyTbl, OSTCBTbl
      ensures Valid() && Abs() == TimeDlyResume(old(Abs()), prio)
      ensures ok == (prio < OS_LOWEST_PRIO && prio in old(Abs()).tasks && old(Abs()).tasks[prio].dly > 0)
    {
      if prio >= OS_LOWEST_PRIO {
        return false;
      }
      LookUp(Data(), prio);
      var ptcb := OSTCBPrioTbl[prio];
      if ptcb == None || OSTCBTbl[ptcb.value].OSTCBDly == 0 {
        return false;
      }
      ExpireTcb(ptcb.value);
      ok := true;
    }

    // -------------------------------------------------------------- suspending tasks

    /** OSTaskSuspend up to its call of OS_Sched, for a task given by its priority; true is OS_ERR_NONE. */
    method OSTaskSuspend(prio: nat) returns (ok: bool)
      requires Valid()
      modifies `OSRdyGrp, OSRdyTbl, OSTCBTbl
      ensures Valid() && Abs() == TaskSuspend(old(Abs()), prio)
      ensures ok == (prio < OS_LOWEST_PRIO && prio in old(Abs()).tasks)
    {
      hide KernelData.Valid;
      if prio >= OS_LOWEST_PRIO {
        return false;
      }
      LookUp(Data(), prio);
      var ptcb := OSTCBPrioTbl[prio];
      if ptcb == None {
        return false;
      }
      MakeUnready(ptcb.value);
      PutTcb(ptcb.value, OSTCBTbl[ptcb.value].(OSTCBStat := OSTCBTbl[ptcb.value].OSTCBStat + {Suspend}));
      ok := true;
    }

    /** OSTaskResume up to its call of OS_Sched; true is OS_ERR_NONE. */
    method OSTaskResume(prio: nat) returns (ok: bool)
      requires Valid()
      modifies `OSRdyGrp, OSRdyTbl, OSTCBTbl
      ensures Valid() && Abs() == TaskResume(old(Abs()), prio)
      ensures ok == (prio < OS_LOWEST_PRIO && prio in old(Abs()).tasks && Suspended(old(Abs()).tasks[prio]))
    {
      hide KernelData.Valid;
      if prio >= OS_LOWEST_PRIO {
        return false;
      }
      LookUp(Data(), prio);
      var ptcb := OSTCBPrioTbl[prio];
      if ptcb == None || Suspend !in OSTCBTbl[ptcb.value].OSTCBStat {
        return false;
      }
      ResumeTcb(ptcb.value);
      ok := true;
    }

    /** The suspension is removed; only a task with no other bit of OSTCBStat and no delay becomes ready. */
    method ResumeTcb(ptcb: nat)
      requires Valid() && ptcb in active && ptcb < OSTCBTbl.Length && PointersOk(OSEventTbl.Length, OSTCBTbl[ptcb])
      modifies `OSRdyGrp, OSRdyTbl, OSTCBTbl
      ensures Valid()
      ensures var p, t := old(OSTCBTbl[ptcb].OSTCBPrio), TaskOf(old(OSTCBTbl[ptcb]));
              var t' := t.(stat := t.stat - {Suspend});
              Abs() == old(Abs()).(tasks := old(Abs()).tasks[p := t'],
                                   ready := if t'.stat == {} && t'.dly == 0 then old(Abs()).ready + {p}
                                            else old(Abs()).ready)
    {
      hide KernelData.Valid, KernelData.Abs;
      var t := OSTCBTbl[ptcb].(OSTCBStat := OSTCBTbl[ptcb].OSTCBStat - {Suspend});
      PutTcb(ptcb, t);
      assert OSTCBTbl[ptcb] == OSTCBTbl[..][ptcb];
      if t.OSTCBStat == {} && t.OSTCBDly == 0 {
        MakeReady(ptcb);
      }
    }

    // -------------------------------------------------------------- pending on a semaphore

    /** OSSemPend on a semaphore without a unit, up to its call of OS_Sched. */
    method OSSemPendWaits(pevent: nat, timeout: nat)
      requires Valid() && OSRunning && pevent < OSEventTbl.Length
      modifies `OSRdyGrp, OSRdyTbl, OSTCBTbl, OSEventTbl
      ensures Valid() && old(Abs()).cur in old(Abs()).tasks
      ensures Abs() == EventTaskWait(PrepareToPend(old(Abs()), {Sem}, timeout), pevent)
    {
      CurrentIsActive(Data());
      var t := OSTCBTbl[OSTCBCur.value];
      t := t.(OSTCBStat := t.OSTCBStat + {Sem}, OSTCBStatPend := PendOk, OSTCBDly := timeout);
      PutTcb(OSTCBCur.value, t);
      OS_EventTaskWait(pevent);
    }

    /** OSSemPend after its call of OS_Sched. */
    method OSSemPendResumed(pevent: nat) returns (perr: Err)
      requires Valid() && OSRunning && pevent < OSEventTbl.Length
      modifies OSTCBTbl, OSEventTbl
      ensures Valid() && old(Abs()).cur in old(Abs()).tasks && Abs() == PendFinish(old(Abs()), pevent)
      ensures match PendOutcome(old(Abs()).tasks[old(Abs()).cur], pevent)
              case Posted(_, _) => perr == OS_ERR_NONE
              case Aborted(_) => perr == OS_ERR_PEND_ABORT
              case TimedOut => perr == OS_ERR_TIMEOUT
    {
      perr := AnswerSem(pevent);
      ClearPend();
    }

    /** What OSSemPend answers; a pend that has timed out leaves the wait list. */
    method AnswerSem(pevent: nat) returns (perr: Err)
      requires Valid() && OSRunning && pevent < OSEventTbl.Length
      modifies OSEventTbl
      ensures Valid() && old(Abs()).cur in old(Abs()).tasks
      ensures var t := old(Abs()).tasks[old(Abs()).cur];
              && Abs() == (if t.statPend == PendTo then EventTaskRemove(old(Abs()), old(Abs()).cur, [pevent])
                           else old(Abs()))
              && perr == match t.statPend {
                           case PendOk => OS_ERR_NONE
                           case PendAbort => OS_ERR_PEND_ABORT
                           case PendTo => OS_ERR_TIMEOUT
                         }
    {
      CurrentIsActive(Data());
      match OSTCBTbl[OSTCBCur.value].OSTCBStatPend {
        case PendOk => perr := OS_ERR_NONE;
        case PendAbort => perr := OS_ERR_PEND_ABORT;
        case PendTo =>
          RemovedOne(Abs().waiters, OSPrioCur, pevent);
          OS_EventTaskRemove(OSTCBCur.value, pevent);
          perr := OS_ERR_TIMEOUT;
      }
    }

    /** The current TCB after OSSemPend: its message stays. */
    method ClearPend()
      requires Valid() && OSRunning
      modifies OSTCBTbl
      ensures Valid() && old(Abs()).cur in old(Abs()).tasks
      ensures var t := old(Abs()).tasks[old(Abs()).cur];
              Abs() == old(Abs()).(
                         tasks := old(Abs()).tasks[old(Abs()).cur := Task(t.dly, {}, PendOk, None, None, t.msg)])
    {
      CurrentIsActive(Data());
      var t := OSTCBTbl[OSTCBCur.value];
      t := t.(OSTCBStat := {}, OSTCBStatPend := PendOk, OSTCBEventPtr := None, OSTCBEventMultiPtr := None);
      PutTcb(OSTCBCur.value, t);
    }

    // -------------------------------------------------------------- creating tasks

    /** Fill in a TCB in front of the head of the list, which then points back to it. */
    method PlaceTcb(ptcb: nat, t: OS_TCB)
      requires ptcb < OSTCBTbl.Length
      requires (OSTCBList.Some? ==> OSTCBList.value < OSTCBTbl.Length && OSTCBList.value != ptcb)
      modifies OSTCBTbl
      ensures OSTCBTbl[..] == LinkFirst(old(OSTCBTbl[..]), ptcb, t, OSTCBList)
      ensures OSTCBTbl[ptcb] == t
    {
      OSTCBTbl[ptcb] := t;
      if OSTCBList != None {
        OSTCBTbl[OSTCBList.value] := OSTCBTbl[OSTCBList.value].(OSTCBPrev := Some(ptcb));
      }
    }

    /** The entries of a new task in the two tables. */
    method EnterTcb(ptcb: nat, t: OS_TCB)
      requires ptcb < OSTCBTbl.Length && t.OSTCBPrio < OSTCBPrioTbl.Length
      requires OSTCBList.Some? ==> OSTCBList.value < OSTCBTbl.Length && OSTCBList.value != ptcb
      modifies OSTCBTbl, OSTCBPrioTbl
      ensures OSTCBTbl[..] == LinkFirst(old(OSTCBTbl[..]), ptcb, t, OSTCBList) && OSTCBTbl[ptcb] == t
      ensures OSTCBPrioTbl[..] == old(OSTCBPrioTbl[..])[t.OSTCBPrio := Some(ptcb)]
    {
      PlaceTcb(ptcb, t);
      ghost var placed := OSTCBTbl[..];
      OSTCBPrioTbl[t.OSTCBPrio] := Some(ptcb);
      assert OSTCBTbl[..] == placed;
    }

    /** The part of OS_TCBInit that takes the first free TCB and links it into the tables. */
    method TakeTcb(t: OS_TCB)
      requires CanTake(Data().tcbs, Data().lists) && t.OSTCBPrio < OSTCBPrioTbl.Length
      modifies `OSTCBFreeList, `OSTCBList, `OSTaskCtr, `active, `free, OSTCBTbl, OSTCBPrioTbl
      ensures Data() == Linked(old(Data()), t)
      ensures active == [old(free)[0]] + old(active) && free == old(free)[1..] && OSTCBList == Some(active[0])
      ensures active[0] < OSTCBTbl.Length && OSTCBTbl[active[0]] == t
    {
      var ptcb := OSTCBFreeList.value;
      OSTCBFreeList := OSTCBTbl[ptcb].OSTCBNext;
      EnterTcb(ptcb, t);
      OSTCBList := Some(ptcb);
      OSTaskCtr := OSTaskCtr + 1;
      active, free := [ptcb] + active, free[1..];
    }

    /** The new task exists, but is not ready yet. */
    method AddTcb(prio: nat)
      requires Valid() && CanTake(Data().tcbs, Data().lists)
      requires prio <= OS_LOWEST_PRIO && prio < OSTCBPrioTbl.Length && OSTCBPrioTbl[prio] == None
      requires active == [] ==> prio == OS_LOWEST_PRIO
      modifies `OSTCBFreeList, `OSTCBList, `OSTaskCtr, `active, `free, OSTCBTbl, OSTCBPrioTbl
      ensures Valid() && Abs() == old(Abs()).(tasks := old(Abs()).tasks[prio := FRESH_TASK])
      ensures active == [old(free)[0]] + old(active) && free == old(free)[1..] && OSTCBList == Some(active[0])
      ensures active[0] < OSTCBTbl.Length && OSTCBTbl[active[0]].OSTCBPrio == prio
    {
      CreatedOk(Data(), prio);
      TakeTcb(NewTcb(OS_LOWEST_PRIO, prio, OSTCBList));
    }

    /** The new task exists and is ready. */
    method CreateTcb(prio: nat)
      requires Valid() && CanTake(Data().tcbs, Data().lists)
      requires prio <= OS_LOWEST_PRIO && prio < OSTCBPrioTbl.Length && OSTCBPrioTbl[prio] == None
      requires active == [] ==> prio == OS_LOWEST_PRIO
      modifies `OSTCBFreeList, `OSTCBList, `OSTaskCtr, `active, `free, `OSRdyGrp, OSRdyTbl, OSTCBTbl, OSTCBPrioTbl
      ensures Valid() && Abs() == TaskCreate(old(Abs()), prio)
      ensures active == [old(free)[0]] + old(active) && free == old(free)[1..]
    {
      hide KernelData.Valid;
      AddTcb(prio);
      MakeReady(OSTCBList.value);
    }

    /** OS_TCBInit: false is OS_ERR_TASK_NO_MORE_TCB. The idle task is the first to be created. */
    method OS_TCBInit(prio: nat) returns (ok: bool)
      requires Valid() && prio <= OS_LOWEST_PRIO && prio < OSTCBPrioTbl.Length && OSTCBPrioTbl[prio] == None
      requires active == [] ==> prio == OS_LOWEST_PRIO
      modifies `OSTCBFreeList, `OSTCBList, `OSTaskCtr, `active, `free, `OSRdyGrp, OSRdyTbl, OSTCBTbl, OSTCBPrioTbl
      ensures Valid() && ok == (old(free) != [])
      ensures !ok ==> Data() == old(Data())
      ensures ok ==> Abs() == TaskCreate(old(Abs()), prio)
      ensures ok ==> active == [old(free)[0]] + old(active) && free == old(free)[1..]
    {
      FreeCanBeTaken(Data().tcbs, Data().lists);
      ok := OSTCBFreeList != None;
      if ok {
        CreateTcb(prio);
      }
    }

    // -------------------------------------------------------------- initialisation

    /** OS_InitRdyList. */
    method OS_InitRdyList()
      modifies `OSRdyGrp, `OSPrioCur, `OSPrioHighRdy, `OSTCBHighRdy, `OSTCBCur, OSRdyTbl
      ensures OSRdyGrp == 0 && (forall y | 0 <= y < OSRdyTbl.Length :: OSRdyTbl[..][y] == 0)
      ensures OSPrioCur == 0 && OSTCBCur == None
    {
      OSRdyGrp := 0;
      for i := 0 to OSRdyTbl.Length
        modifies OSRdyTbl
        invariant forall y | 0 <= y < i :: OSRdyTbl[y] == 0
      {
        OSRdyTbl[i] := 0;
      }
      OSPrioCur, OSPrioHighRdy := 0, 0;
      OSTCBHighRdy, OSTCBCur := None, None;
    }

    /** OS_InitTCBList: every TCB goes into the free list, in the order of the table. */
    method OS_InitTCBList()
      requires OSTCBTbl.Length > 0
      modifies `OSTCBList, `OSTCBFreeList, `active, `free, OSTCBTbl, OSTCBPrioTbl
      ensures FreshTcbs(OSTCBTbl[..], OSTCBTbl.Length)
      ensures forall i | 0 <= i < OSTCBTbl.Length ::
                OSTCBTbl[i] == OS_TCB(if i + 1 < OSTCBTbl.Length then Some(i + 1) else None, None, None, None, NULL_MSG,
                                      0, {}, PendOk, 0, 0, 0, 0, 0)
      ensures forall p | 0 <= p < OSTCBPrioTbl.Length :: OSTCBPrioTbl[..][p] == None
      ensures OSTCBList == None && OSTCBFreeList == Some(0) && active == [] && free == Range(OSTCBTbl.Length)
    {
      for p := 0 to OSTCBPrioTbl.Length
        invariant forall q | 0 <= q < p :: OSTCBPrioTbl[q] == None
      {
        OSTCBPrioTbl[p] := None;
      }
      for i := 0 to OSTCBTbl.Length - 1
        modifies OSTCBTbl
        invariant FreshTcbs(OSTCBTbl[..], i)
      {
        OSTCBTbl[i] := FreeTcb(Some(i + 1));
      }
      OSTCBTbl[OSTCBTbl.Length - 1] := FreeTcb(None);
      OSTCBList, OSTCBFreeList := None, Some(0);
      active, free := [], Range(OSTCBTbl.Length);
    }

    /** OS_InitEventList. */
    method OS_InitEventList()
      modifies OSEventTbl
      ensures forall e | 0 <= e < OSEventTbl.Length :: OSEventTbl[..][e] == FreeEvent(OS_LOWEST_PRIO)
    {
      for i := 0 to OSEventTbl.Length
        invariant forall e | 0 <= e < i :: OSEventTbl[e] == FreeEvent(OS_LOWEST_PRIO)
      {
        OSEventTbl[i] := FreeEvent(OS_LOWEST_PRIO);
      }
    }

    /** OS_InitMisc. */
    method OS_InitMisc()
      modifies `OSTime, `OSIntNesting, `OSLockNesting, `OSTaskCtr, `OSRunning, `OSCtxSwCtr, `OSTickStepState
      ensures OSIntNesting == 0 && OSLockNesting == 0 && OSTaskCtr == 0 && !OSRunning && OSCtxSwCtr == 0
      ensures OSTickStepState == StepDisabled
    {
      OSTime, OSIntNesting, OSLockNesting, OSTaskCtr, OSRunning, OSCtxSwCtr := 0, 0, 0, 0, false, 0;
      OSTickStepState := StepDisabled;
    }

    /** OSInit before it creates the idle task. */
    method ClearAll()
      requires SizesOk()
      modifies this, OSRdyTbl, OSTCBTbl, OSTCBPrioTbl, OSEventTbl
      ensures Cleared(Data())
    {
      OS_InitMisc();
      OS_InitRdyList();
      OS_InitTCBList();
      OS_InitEventList();
    }

    /** The tables have the sizes that os_cfg.h and ucos_ii.h give them. */
    ghost predicate SizesOk() {
      && OS_LOWEST_PRIO <= PrioMap.MAX_LOWEST_PRIO
      && OSRdyTbl.Length == PrioMap.Rows(OS_LOWEST_PRIO)
      && OSTCBPrioTbl.Length == OS_LOWEST_PRIO + 1
      && OSTCBTbl.Length > 0
    }

    /** The global variables, before OSInit and with tables of any contents. */
    constructor (lowest: nat, tcbs: nat, events: nat)
      requires lowest <= PrioMap.MAX_LOWEST_PRIO && tcbs > 0
      ensures SizesOk() && OS_LOWEST_PRIO == lowest && OSTCBTbl.Length == tcbs && OSEventTbl.Length == events
      ensures fresh(OSRdyTbl) && fresh(OSTCBTbl) && fresh(OSTCBPrioTbl) && fresh(OSEventTbl)
    {
      OS_LOWEST_PRIO := lowest;
      OSRdyTbl := new nat[PrioMap.Rows(lowest)](_ => 0);
      OSTCBTbl := new OS_TCB[tcbs](_ => FreeTcb(None));
      OSTCBPrioTbl := new Ptr[lowest + 1](_ => None);
      OSEventTbl := new OS_EVENT[events](_ => FreeEvent(lowest));
      OSRdyGrp, OSTCBList, OSTCBFreeList, OSTaskCtr, OSRunning := 0, None, None, 0, false;
      OSIntNesting, OSLockNesting, OSTickStepState, OSTime := 0, 0, StepDisabled, 0;
      OSPrioCur, OSPrioHighRdy, OSTCBCur, OSTCBHighRdy, OSCtxSwCtr := 0, 0, None, None, 0;
      active, free := [], [];
    }

    /** OSInit up to OS_InitTaskIdle, as far as tasks and events go: the kernel is where its runs start. */
    method InitIdle(ghost types: seq<Flag>)
      requires SizesOk() && |types| == OSEventTbl.Length
      modifies this, OSRdyTbl, OSTCBTbl, OSTCBPrioTbl, OSEventTbl
      ensures Valid() && Abs() == KernelTheorems.Init(OS_LOWEST_PRIO, types).k
      ensures |active| == 1 && |free| == OSTCBTbl.Length - 1
    {
      hide KernelData.Valid, KernelData.Abs;
      ClearAll();
      ClearedIsValid(Data());
      RangeIs(OSTCBTbl.Length);
      var ok := OS_TCBInit(OS_LOWEST_PRIO);
      assert TaskCreate(EmptyState(OS_LOWEST_PRIO, |types|), OS_LOWEST_PRIO)
          == KernelTheorems.Init(OS_LOWEST_PRIO, types).k;
    }

    /**
     OSInit, as far as tasks and events go. With OS_TASK_STAT_EN it also creates the statistics
     task, next to the idle task in priority: the kernel is one step into its runs.
     */
    method OSInit(taskStatEn: bool, ghost types: seq<Flag>)
      requires SizesOk() && |types| == OSEventTbl.Length
      requires taskStatEn ==> OS_LOWEST_PRIO > 0 && OSTCBTbl.Length > 1
      modifies this, OSRdyTbl, OSTCBTbl, OSTCBPrioTbl, OSEventTbl
      ensures var init := KernelTheorems.Init(OS_LOWEST_PRIO, types);
              && Valid()
              && Abs() == if taskStatEn then TaskCreate(init.k, OS_LOWEST_PRIO - 1) else init.k
      ensures |active| == if taskStatEn then 2 else 1
    {
      hide KernelData.Valid, KernelData.Abs;
      InitIdle(types);
      if taskStatEn {
        StatIsUnused();
        var ok := OS_TCBInit(OS_LOWEST_PRIO - 1);
      }
    }

    lemma StatIsUnused()
      requires Valid() && OS_LOWEST_PRIO > 0 && Abs().tasks.Keys == {OS_LOWEST_PRIO}
      ensures OS_LOWEST_PRIO - 1 < OSTCBPrioTbl.Length && OSTCBPrioTbl[OS_LOWEST_PRIO - 1] == None
    {
      LookUp(Data(), OS_LOWEST_PRIO - 1);
    }
  }
}
