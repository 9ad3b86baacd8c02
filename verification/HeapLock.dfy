/**
 The recursive heap lock over a semaphore. Tasks are interleaved between any two of their
 accesses to the shared variables, including the two unprotected assignments after the call of
 OSSemPend. That call may be refused, which __malloc_lock does not notice.
 */
module HeapLock {
  import opened Basics

  /** A task is known by its priority. */
  type Task = nat

  /** The semaphore's count and the two static variables; a `lockid` of -1 is None. */
  datatype Shared = Shared(count: nat, locks: int, lockid: Option<Task>)

  /** Where a task stands. `depth` counts its calls of __malloc_lock that have returned and are not yet undone. */
  datatype Phase =
    | Outside(depth: nat)
    | Queried(depth: nat, cnt: nat)     // in __malloc_lock, after OSSemQuery
    | AboutToPend(depth: nat)           // it does not own the heap
    | Pending                           // blocked in OSSemPend
    | Obtained                          // OSSemPend has returned, with the semaphore or refused
    | Counted                           // locks is set, lockid not yet
    | AboutToPost                       // in __malloc_unlock, lockid is reset

  datatype State = State(shared: Shared, phase: map<Task, Phase>)

  datatype Step =
    | Query(t: Task) | Decide(t: Task) | Pend(t: Task, intNesting: nat, lockNesting: nat)
    | SetLocks(t: Task) | SetId(t: Task) | Unlock(t: Task) | Post(t: Task)

  /** OSSemPend returns OS_ERR_PEND_ISR or OS_ERR_PEND_LOCKED and takes nothing. */
  predicate IsRefused(step: Step) { step.Pend? && (step.intNesting > 0 || step.lockNesting > 0) }

  /** The largest count of a semaphore. */
  const MAX_COUNT := 65535

  // ---------------------------------------------------------------- the shared variables

  /** The test for recursion. */
  predicate Reenters(s: Shared, t: Task, cnt: nat) { cnt == 0 && s.lockid == Some(t) }

  /** The critical section of __malloc_unlock. */
  function Unlocked(s: Shared): Shared {
    if s.locks == 0 then s
    else if s.locks - 1 == 0 then s.(locks := 0, lockid := None)
    else s.(locks := s.locks - 1)
  }

  class MallocLock {
    var lockid: Option<Task>
    var locks: int
    var count: nat                    // of alt_heapsem

    function Value(): Shared
      reads this
    {
      Shared(count, locks, lockid)
    }

    /** The critical section of __malloc_lock, with the count that OSSemQuery has read. */
    method TryToReenter(id: Task, OSCnt: nat) returns (owned: bool)
      modifies `locks
      ensures owned == Reenters(old(Value()), id, OSCnt)
      ensures Value() == if owned then old(Value()).(locks := old(Value()).locks + 1) else old(Value())
      ensures forall s: State, owner |
                OwnedBy(s, owner) && s.shared == old(Value()) && id in s.phase
                && s.phase[id].Queried? && s.phase[id].cnt == OSCnt ::
                owned <==> owner == Some(id)
    {
      owned := OSCnt == 0 && lockid == Some(id);
      if owned {
        locks := locks + 1;
      }
    }

    /** The critical section of __malloc_unlock; true when the semaphore is to be posted. */
    method Release() returns (post: bool)
      modifies `locks, `lockid
      ensures Value() == Unlocked(old(Value()))
      ensures post <==> old(locks) != 0 && locks == 0
    {
      if locks == 0 {
        return false;
      }
      locks := locks - 1;
      post := locks == 0;
      if post {
        lockid := None;
      }
    }
  }

  // ---------------------------------------------------------------- the steps

  /** The waiting task the semaphore goes to. */
  ghost predicate IsNext(s: State, t: Task) {
    t in s.phase && s.phase[t].Pending? && forall u | u in s.phase && s.phase[u].Pending? :: t <= u
  }

  ghost predicate Enabled(s: State, step: Step) {
    step.t in s.phase &&
    var ph := s.phase[step.t];
    match step
    case Query(_) => ph.Outside?
    case Decide(_) => ph.Queried?
    case Pend(_, _, _) => ph.AboutToPend?
    case SetLocks(_) => ph.Obtained?
    case SetId(_) => ph.Counted?
    case Unlock(_) => ph.Outside? && ph.depth > 0         // calls are paired
    case Post(_) => ph.AboutToPost?
  }

  /** Post hands the semaphore to the most urgent waiting task, or counts it. */
  ghost predicate Next(s: State, step: Step, s': State)
    requires Enabled(s, step)
  {
    var t, ph, v := step.t, s.phase[step.t], s.shared;
    match step
    case Query(_) => s' == s.(phase := s.phase[t := Queried(ph.depth, v.count)])
    case Decide(_) =>
      s' == if Reenters(v, t, ph.cnt) then State(v.(locks := v.locks + 1), s.phase[t := Outside(ph.depth + 1)])
            else s.(phase := s.phase[t := AboutToPend(ph.depth)])
    case Pend(_, _, _) =>
      s' == if IsRefused(step) then s.(phase := s.phase[t := Obtained])
            else if v.count > 0 then State(v.(count := v.count - 1), s.phase[t := Obtained])
            else s.(phase := s.phase[t := Pending])
    case SetLocks(_) => s' == State(v.(locks := 1), s.phase[t := Counted])
    case SetId(_) => s' == State(v.(lockid := Some(t)), s.phase[t := Outside(1)])
    case Unlock(_) =>
      s' == State(Unlocked(v), s.phase[t := if v.locks == 1 then AboutToPost else Outside(ph.depth - 1)])
    case Post(_) =>
      if exists u :: IsNext(s, u) then
        exists u :: IsNext(s, u) && s' == s.(phase := s.phase[t := Outside(0)][u := Obtained])
      else s' == State(v.(count := if v.count < MAX_COUNT then v.count + 1 else v.count), s.phase[t := Outside(0)])
  }

  // ---------------------------------------------------------------- the invariant

  /** The task has the semaphore, or is about to give it back. */
  predicate Owns(ph: Phase) {
    match ph
    case Outside(d) => d > 0
    case Queried(d, _) => d > 0
    case AboutToPend(d) => d > 0
    case Pending => false
    case Obtained => true
    case Counted => true
    case AboutToPost => true
  }

  /** Between a returned __malloc_lock and its matching __malloc_unlock. */
  predicate Inside(ph: Phase) { (ph.Outside? || ph.Queried? || ph.AboutToPend?) && ph.depth > 0 }

  /** What the variables hold while the task owns the semaphore. */
  predicate OwnerOk(v: Shared, t: Task, ph: Phase) {
    && v.count == 0
    && match ph
       case Outside(d) => d > 0 && v.locks == d && v.lockid == Some(t)
       case Queried(d, cnt) => d > 0 && v.locks == d && v.lockid == Some(t) && cnt == 0
       case AboutToPend(_) => false
       case Pending => false
       case Obtained => v.locks == 0 && v.lockid == None
       case Counted => v.locks == 1 && v.lockid == None
       case AboutToPost => v.locks == 0 && v.lockid == None
  }

  /** Nobody owns the heap, or `owner` alone does. */
  ghost predicate OwnedBy(s: State, owner: Option<Task>) {
    && (forall t | t in s.phase && Owns(s.phase[t]) :: owner == Some(t))
    && match owner
       case None => s.shared == Shared(1, 0, None) && (forall t | t in s.phase :: !s.phase[t].Pending?)
       case Some(t) => t in s.phase && OwnerOk(s.shared, t, s.phase[t])
  }

  ghost predicate Inv(s: State) { exists owner :: OwnedBy(s, owner) }

  ghost function OwnerAfter(s: State, owner: Option<Task>, step: Step, s': State): Option<Task>
    requires Enabled(s, step) && Next(s, step, s')
  {
    match step
    case Pend(t, _, _) => if s.shared.count > 0 then Some(t) else owner
    case Post(t) => if exists u :: IsNext(s, u) then var u :| IsNext(s, u); Some(u) else None
    case _ => owner
  }

  lemma PostKeeps(s: State, owner: Option<Task>, t: Task, s': State)
    requires OwnedBy(s, owner) && Enabled(s, Post(t)) && Next(s, Post(t), s')
    ensures OwnedBy(s', OwnerAfter(s, owner, Post(t), s'))
  {
    if exists u :: IsNext(s, u) {
      var u :| IsNext(s, u);
      assert forall x | IsNext(s, x) :: x == u;
    } else {
      SomeoneIsNext(s);
    }
  }

  ghost function Waiting(s: State): set<Task> { set t | t in s.phase && s.phase[t].Pending? }

  lemma SomeoneIsNext(s: State)
    ensures (exists u :: IsNext(s, u)) || (forall t | t in s.phase :: !s.phase[t].Pending?)
  {
    if Waiting(s) != {} {
      assert IsNext(s, Least(Waiting(s))) by {
        forall u | u in s.phase && s.phase[u].Pending? ensures Least(Waiting(s)) <= u { assert u in Waiting(s); }
      }
    } else {
      forall t | t in s.phase ensures !s.phase[t].Pending? { assert t !in Waiting(s); }
    }
  }

  lemma StepKeeps(s: State, owner: Option<Task>, step: Step, s': State)
    requires OwnedBy(s, owner) && Enabled(s, step) && Next(s, step, s') && !IsRefused(step)
    ensures OwnedBy(s', OwnerAfter(s, owner, step, s')) && s'.phase.Keys == s.phase.Keys
  {
    match step {
      case Post(t) => PostKeeps(s, owner, t, s');
      case Pend(t, _, _) =>
        assert !Owns(s.phase[t]);
      case _ =>
    }
  }

  // ---------------------------------------------------------------- runs

  ghost predicate IsRun(states: seq<State>, steps: seq<Step>) {
    |states| == |steps| + 1
    && forall i | 0 <= i < |steps| :: Enabled(states[i], steps[i]) && Next(states[i], steps[i], states[i + 1])
  }

  /** No task is in the lock, and the semaphore has been created with a count of one. */
  ghost predicate Initial(s: State) {
    s.shared == Shared(1, 0, None) && forall t | t in s.phase :: s.phase[t] == Outside(0)
  }

  ghost predicate NoneRefused(steps: seq<Step>, n: nat)
    requires n <= |steps|
  {
    forall i | 0 <= i < n :: !IsRefused(steps[i])
  }

  lemma {:induction false} RunKeeps(states: seq<State>, steps: seq<Step>, i: nat)
    requires IsRun(states, steps) && Initial(states[0]) && i <= |steps| && NoneRefused(steps, i)
    ensures Inv(states[i])
  {
    if i == 0 {
      assert OwnedBy(states[0], None);
    } else {
      RunKeeps(states, steps, i - 1);
      var owner :| OwnedBy(states[i - 1], owner);
      StepKeeps(states[i - 1], owner, steps[i - 1], states[i]);
    }
  }

  /** The tasks that have the semaphore or are about to post it. */
  ghost function Owners(s: State): set<Task> { set t | t in s.phase && Owns(s.phase[t]) }

  /** The semaphore's count and the tasks that own the heap or are about to release it. */
  ghost function Sum(s: State): nat { |Owners(s)| + s.shared.count }

  lemma SumIsOne(s: State)
    requires Inv(s)
    ensures Sum(s) == 1
  {
    var owner :| OwnedBy(s, owner);
    match owner {
      case None => assert Owners(s) == {};
      case Some(t) => assert Owners(s) == {t};
    }
  }

  /** A refused pend makes its task one more owner. */
  lemma RefusedIsOneMore(s: State, step: Step, s': State)
    requires Inv(s) && Enabled(s, step) && Next(s, step, s') && IsRefused(step)
    ensures Sum(s') == 2
  {
    SumIsOne(s);
    assert !Owns(s.phase[step.t]);
    assert Owners(s') == Owners(s) + {step.t};
  }

  /**
   In every interleaving of paired calls, the semaphore's count and the tasks that own the heap
   or are about to release it are one together for the whole run, if and only if no pend of the
   run is refused.
   */
  lemma SumStaysOneExactly(states: seq<State>, steps: seq<Step>)
    requires IsRun(states, steps) && Initial(states[0])
    ensures (forall i | 0 <= i <= |steps| :: Sum(states[i]) == 1) <==>
            forall i | 0 <= i < |steps| && steps[i].Pend? :: steps[i].intNesting == 0 && steps[i].lockNesting == 0
  {
    if NoneRefused(steps, |steps|) {
      forall i | 0 <= i <= |steps| ensures Sum(states[i]) == 1 {
        RunKeeps(states, steps, i);
        SumIsOne(states[i]);
      }
    } else {
      var i := FirstRefused(steps, 0);
      RunKeeps(states, steps, i);
      RefusedIsOneMore(states[i], steps[i], states[i + 1]);
    }
  }

  lemma {:induction false} FirstRefused(steps: seq<Step>, n: nat) returns (i: nat)
    requires n <= |steps| && NoneRefused(steps, n) && !NoneRefused(steps, |steps|)
    ensures i < |steps| && NoneRefused(steps, i) && IsRefused(steps[i])
    decreases |steps| - n
  {
    if IsRefused(steps[n]) { i := n; } else { i := FirstRefused(steps, n + 1); }
  }

  /**
   Until a pend is refused: at most one task is between a returned __malloc_lock and its matching
   __malloc_unlock; when it calls __malloc_lock again it only counts; and no task waits while the
   semaphore is free.
   */
  lemma ExactlyOne(states: seq<State>, steps: seq<Step>, i: nat)
    requires IsRun(states, steps) && Initial(states[0]) && i <= |steps| && NoneRefused(steps, i)
    ensures Sum(states[i]) == 1
    ensures forall t, u | t in states[i].phase && u in states[i].phase
                          && Inside(states[i].phase[t]) && Inside(states[i].phase[u]) :: t == u
    ensures forall t | t in states[i].phase && states[i].phase[t].Queried? ::
              Reenters(states[i].shared, t, states[i].phase[t].cnt) <==> Inside(states[i].phase[t])
    ensures forall t | t in states[i].phase && states[i].phase[t].Pending? :: states[i].shared.count == 0
  {
    RunKeeps(states, steps, i);
    SumIsOne(states[i]);
    var owner :| OwnedBy(states[i], owner);
  }

  // ---------------------------------------------------------------- two runs with a refused pend

  /** The state of two tasks. */
  function Two(shared: Shared, one: Phase, two: Phase): State { State(shared, map[1 := one, 2 := two]) }

  lemma TwoMoves(shared: Shared, one: Phase, two: Phase, next: Phase)
    ensures Two(shared, one, two).phase[1 := next] == Two(shared, next, two).phase
    ensures Two(shared, one, two).phase[2 := next] == Two(shared, one, next).phase
  { }

  ghost predicate Goes(s: State, step: Step, s': State) { Enabled(s, step) && Next(s, step, s') }

  lemma RunGrows(states: seq<State>, steps: seq<Step>, step: Step, s': State)
    requires IsRun(states, steps) && Goes(states[|steps|], step, s')
    ensures IsRun(states + [s'], steps + [step])
  { }

  /** Task 1 calls __malloc_lock while nobody else is inside; its pend may be refused. */
  lemma FirstLocks(lockNesting: nat) returns (states: seq<State>, steps: seq<Step>)
    ensures IsRun(states, steps) && Initial(states[0]) && |steps| == 5
    ensures steps[2] == Pend(1, 0, lockNesting)
    ensures states[5] == Two(Shared(if lockNesting > 0 then 1 else 0, 1, Some(1)), Outside(1), Outside(0))
  {
    var left := if lockNesting > 0 then 1 else 0;
    var s0, s1 := Two(Shared(1, 0, None), Outside(0), Outside(0)), Two(Shared(1, 0, None), Queried(0, 1), Outside(0));
    var s2, s3 := Two(Shared(1, 0, None), AboutToPend(0), Outside(0)), Two(Shared(left, 0, None), Obtained, Outside(0));
    var s4 := Two(Shared(left, 1, None), Counted, Outside(0));
    var s5 := Two(Shared(left, 1, Some(1)), Outside(1), Outside(0));
    TwoMoves(s0.shared, Outside(0), Outside(0), Queried(0, 1));
    TwoMoves(s1.shared, Queried(0, 1), Outside(0), AboutToPend(0));
    TwoMoves(s2.shared, AboutToPend(0), Outside(0), Obtained);
    TwoMoves(s3.shared, Obtained, Outside(0), Counted);
    TwoMoves(s4.shared, Counted, Outside(0), Outside(1));
    assert Goes(s0, Query(1), s1);
    assert Goes(s1, Decide(1), s2);
    assert Goes(s2, Pend(1, 0, lockNesting), s3);
    assert Goes(s3, SetLocks(1), s4);
    assert Goes(s4, SetId(1), s5);
    states, steps :=
      FiveSteps(s0, Query(1), s1, Decide(1), s2, Pend(1, 0, lockNesting), s3, SetLocks(1), s4, SetId(1), s5);
  }

  lemma FiveSteps(s0: State, t0: Step, s1: State, t1: Step, s2: State, t2: Step, s3: State, t3: Step, s4: State,
                  t4: Step, s5: State) returns (states: seq<State>, steps: seq<Step>)
    requires Goes(s0, t0, s1) && Goes(s1, t1, s2) && Goes(s2, t2, s3) && Goes(s3, t3, s4) && Goes(s4, t4, s5)
    ensures IsRun(states, steps)
    ensures states == [s0, s1, s2, s3, s4, s5] && steps == [t0, t1, t2, t3, t4]
  {
    RunGrows([s0], [], t0, s1);
    assert [s0] + [s1] == [s0, s1] && [] + [t0] == [t0];
    RunGrows([s0, s1], [t0], t1, s2);
    assert [s0, s1] + [s2] == [s0, s1, s2] && [t0] + [t1] == [t0, t1];
    RunGrows([s0, s1, s2], [t0, t1], t2, s3);
    assert [s0, s1, s2] + [s3] == [s0, s1, s2, s3] && [t0, t1] + [t2] == [t0, t1, t2];
    RunGrows([s0, s1, s2, s3], [t0, t1, t2], t3, s4);
    assert [s0, s1, s2, s3] + [s4] == [s0, s1, s2, s3, s4] && [t0, t1, t2] + [t3] == [t0, t1, t2, t3];
    RunGrows([s0, s1, s2, s3, s4], [t0, t1, t2, t3], t4, s5);
    states, steps := [s0, s1, s2, s3, s4, s5], [t0, t1, t2, t3, t4];
    assert [s0, s1, s2, s3, s4] + [s5] == states && [t0, t1, t2, t3] + [t4] == steps;
  }

  lemma RunsJoin(states: seq<State>, steps: seq<Step>, states': seq<State>, steps': seq<Step>)
    requires IsRun(states, steps) && IsRun(states', steps') && states[|steps|] == states'[0]
    ensures IsRun(states + states'[1..], steps + steps')
    ensures (states + states'[1..])[|steps + steps'|] == states'[|steps'|]
  {
    var all, both := states + states'[1..], steps + steps';
    forall i | 0 <= i < |both| ensures Enabled(all[i], both[i]) && Next(all[i], both[i], all[i + 1]) {
      if i >= |steps| { assert all[i] == states'[i - |steps|]; }
    }
  }

  /** Task 2 calls __malloc_lock with the scheduler locked while task 1 is inside. */
  lemma SecondIsRefused() returns (states: seq<State>, steps: seq<Step>)
    ensures IsRun(states, steps) && |steps| == 5 && IsRefused(steps[2])
    ensures states[0] == Two(Shared(0, 1, Some(1)), Outside(1), Outside(0))
    ensures states[5] == Two(Shared(0, 1, Some(2)), Outside(1), Outside(1))
  {
    var v, w := Shared(0, 1, Some(1)), Shared(0, 1, Some(2));
    var s0, s1 := Two(v, Outside(1), Outside(0)), Two(v, Outside(1), Queried(0, 0));
    var s2, s3 := Two(v, Outside(1), AboutToPend(0)), Two(v, Outside(1), Obtained);
    var s4, s5 := Two(v, Outside(1), Counted), Two(w, Outside(1), Outside(1));
    TwoMoves(v, Outside(1), Outside(0), Queried(0, 0));
    TwoMoves(v, Outside(1), Queried(0, 0), AboutToPend(0));
    TwoMoves(v, Outside(1), AboutToPend(0), Obtained);
    TwoMoves(v, Outside(1), Obtained, Counted);
    TwoMoves(v, Outside(1), Counted, Outside(1));
    assert Goes(s0, Query(2), s1);
    assert Goes(s1, Decide(2), s2);
    assert Goes(s2, Pend(2, 0, 1), s3);
    assert Goes(s3, SetLocks(2), s4);
    assert Goes(s4, SetId(2), s5);
    states, steps := FiveSteps(s0, Query(2), s1, Decide(2), s2, Pend(2, 0, 1), s3, SetLocks(2), s4, SetId(2), s5);
  }

  /** Both tasks are inside: the second one has allocated with the scheduler locked. */
  lemma BothInside() returns (states: seq<State>, steps: seq<Step>)
    ensures IsRun(states, steps) && Initial(states[0])
    ensures var last := states[|steps|];
            1 in last.phase && 2 in last.phase && Inside(last.phase[1]) && Inside(last.phase[2])
  {
    var first, steps1 := FirstLocks(0);
    var second, steps2 := SecondIsRefused();
    RunsJoin(first, steps1, second, steps2);
    states, steps := first + second[1..], steps1 + steps2;
  }

  /** A refused pend while the semaphore is free, and the matching unlock leaves its count at two. */
  lemma CountOfTwo() returns (states: seq<State>, steps: seq<Step>)
    ensures IsRun(states, steps) && Initial(states[0])
    ensures states[|steps|] == Two(Shared(2, 0, None), Outside(0), Outside(0))
  {
    var first, steps1 := FirstLocks(1);
    var s5 := Two(Shared(1, 1, Some(1)), Outside(1), Outside(0));
    var s6 := Two(Shared(1, 0, None), AboutToPost, Outside(0));
    var s7 := Two(Shared(2, 0, None), Outside(0), Outside(0));
    TwoMoves(s5.shared, Outside(1), Outside(0), AboutToPost);
    TwoMoves(s6.shared, AboutToPost, Outside(0), Outside(0));
    assert Goes(s5, Unlock(1), s6);
    assert forall u :: !IsNext(s6, u);
    assert Goes(s6, Post(1), s7);
    RunGrows(first, steps1, Unlock(1), s6);
    RunGrows(first + [s6], steps1 + [Unlock(1)], Post(1), s7);
    states, steps := first + [s6] + [s7], steps1 + [Unlock(1)] + [Post(1)];
  }
}
