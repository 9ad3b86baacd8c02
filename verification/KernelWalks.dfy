/**
 OSTimeTick's walk over the list of TCBs when other steps come in between: OS_TCBInit is the
 only one that changes the list, and it puts its TCB in front.
 */
module KernelWalks {
  import opened KernelSpec
  import opened KernelRuns
  import opened KernelTheorems

  /** The priorities of the TCBs in the list, from its head: all tasks, each once, and the idle task last. */
  ghost predicate IsList(sys: System, list: seq<Prio>) {
    && list != [] && list[|list| - 1] == sys.k.idle
    && (forall i, j | 0 <= i < j < |list| :: list[i] != list[j])
    && (forall p :: p in list <==> p in sys.k.tasks)
  }

  ghost function ListAfter(list: seq<Prio>, step: Step): seq<Prio> {
    if step.Create? then [step.p] + list else list
  }

  lemma TasksAfterPend(sys: System, step: Step)
    requires WellFormed(sys) && Enabled(sys, step) && (step.Post? || step.Block? || step.Finish?)
    ensures Effect(sys, step).k.tasks.Keys == sys.k.tasks.Keys && Effect(sys, step).k.idle == sys.k.idle
  { }

  lemma TasksAfterTick(sys: System, step: Step)
    requires WellFormed(sys) && Enabled(sys, step) && (step.Tick? || step.TickTcb? || step.Delay?)
    ensures Effect(sys, step).k.tasks.Keys == sys.k.tasks.Keys && Effect(sys, step).k.idle == sys.k.idle
  { }

  lemma TasksAfterCall(sys: System, step: Step)
    requires WellFormed(sys) && Enabled(sys, step) && (step.DelayResume? || step.SuspendTask? || step.ResumeTask?)
    ensures Effect(sys, step).k.tasks.Keys == sys.k.tasks.Keys && Effect(sys, step).k.idle == sys.k.idle
  { }

  lemma TasksAfter(sys: System, step: Step)
    requires WellFormed(sys) && Enabled(sys, step)
    ensures Next(sys, step).k.tasks.Keys == sys.k.tasks.Keys + if step.Create? then {step.p} else {}
    ensures Next(sys, step).k.idle == sys.k.idle
  {
    if step.Post? || step.Block? || step.Finish? {
      TasksAfterPend(sys, step);
    } else if step.Tick? || step.TickTcb? || step.Delay? {
      TasksAfterTick(sys, step);
    } else if step.DelayResume? || step.SuspendTask? || step.ResumeTask? {
      TasksAfterCall(sys, step);
    }
  }

  /** Every step keeps the list. */
  lemma ListStep(sys: System, step: Step, list: seq<Prio>)
    requires WellFormed(sys) && Enabled(sys, step) && IsList(sys, list)
    ensures IsList(Next(sys, step), ListAfter(list, step))
  {
    hide WellFormed;
    TasksAfter(sys, step);
    var sys', list' := Next(sys, step), ListAfter(list, step);
    forall p ensures p in list' <==> p in sys'.k.tasks {
      assert p in list' <==> p in list || (step.Create? && p == step.p);
      assert p in sys'.k.tasks.Keys <==> p in sys.k.tasks.Keys || (step.Create? && p == step.p);
    }
  }

  /** OSTCBNext of the TCB at `p`. */
  ghost function Behind(list: seq<Prio>, p: Prio): Prio
    requires exists i :: 0 <= i < |list| - 1 && list[i] == p
  {
    var i :| 0 <= i < |list| - 1 && list[i] == p;
    list[i + 1]
  }

  /**
   The steps of one walk within a run: `mine` marks them, and `at` is the TCB the walk points to.
   It has come to the idle task when the run ends.
   */
  ghost predicate IsWalk(list: seq<Prio>, at: Prio, steps: seq<Step>, mine: seq<bool>)
    decreases |steps|
  {
    && |mine| == |steps| && list != []
    && if steps == [] then at == list[|list| - 1]
       else if mine[0] then
         && steps[0] == TickTcb(at) && (exists i :: 0 <= i < |list| - 1 && list[i] == at)
         && IsWalk(list, Behind(list, at), steps[1..], mine[1..])
       else IsWalk(ListAfter(list, steps[0]), at, steps[1..], mine[1..])
  }

  /** The tasks the walk meets, in order. */
  ghost function Met(steps: seq<Step>, mine: seq<bool>): seq<Prio>
    requires |mine| == |steps|
    decreases |steps|
  {
    if steps == [] then []
    else (if mine[0] && steps[0].TickTcb? then [steps[0].p] else []) + Met(steps[1..], mine[1..])
  }

  lemma PlaceInList(sys: System, list: seq<Prio>, k: nat)
    requires IsList(sys, list) && k < |list|
    ensures list[k] == list[|list| - 1] ==> k == |list| - 1
    ensures (exists i :: 0 <= i < |list| - 1 && list[i] == list[k]) ==> k < |list| - 1
    ensures k < |list| - 1 ==> Behind(list, list[k]) == list[k + 1]
  { }

  lemma {:induction false} MeetsRest(sys: System, list: seq<Prio>, k: nat, steps: seq<Step>, mine: seq<bool>)
    requires Inv(sys) && CanRun(sys, steps) && IsList(sys, list)
    requires k < |list| && IsWalk(list, list[k], steps, mine)
    ensures Met(steps, mine) == list[k..|list| - 1]
    decreases |steps|
  {
    hide Inv, Next, Enabled, WellFormed, IsList, Behind;
    PlaceInList(sys, list, k);
    if steps != [] {
      KeepStep(sys, steps[0]);
      ListStep(sys, steps[0], list);
      if mine[0] {
        MeetsRest(Next(sys, steps[0]), list, k + 1, steps[1..], mine[1..]);
        assert list[k..|list| - 1] == [list[k]] + list[k + 1..|list| - 1];
      } else if steps[0].Create? {
        var list' := [steps[0].p] + list;
        MeetsRest(Next(sys, steps[0]), list', k + 1, steps[1..], mine[1..]);
        assert list'[k + 1..|list'| - 1] == list[k..|list| - 1];
      } else {
        MeetsRest(Next(sys, steps[0]), list, k, steps[1..], mine[1..]);
      }
    }
  }

  lemma {:induction false} MetIsTicked(sys: System, steps: seq<Step>, mine: seq<bool>, p: Prio)
    requires CanRun(sys, steps) && |mine| == |steps| && p in Met(steps, mine)
    ensures Ticks(sys, steps, p) >= 1
    decreases |steps|
  {
    if !(mine[0] && steps[0] == TickTcb(p)) { MetIsTicked(Next(sys, steps[0]), steps[1..], mine[1..], p); }
  }

  /**
   A walk that starts at the head of the list and comes to the idle task meets all other tasks
   that existed when it began, each once and in the order of the list, whatever interrupt
   handlers and tasks do in between; so each of them is ticked.
   */
  lemma WalkMeetsAll(sys: System, list: seq<Prio>, steps: seq<Step>, mine: seq<bool>)
    requires Inv(sys) && CanRun(sys, steps) && IsList(sys, list) && IsWalk(list, list[0], steps, mine)
    ensures Met(steps, mine) == list[..|list| - 1]
    ensures forall p | p in sys.k.tasks && p != sys.k.idle :: Ticks(sys, steps, p) >= 1
  {
    hide Inv, CanRun;
    MeetsRest(sys, list, 0, steps, mine);
    forall p | p in sys.k.tasks && p != sys.k.idle ensures Ticks(sys, steps, p) >= 1 {
      assert p in list;
      assert p in list[..|list| - 1];
      MetIsTicked(sys, steps, mine, p);
    }
  }
}
