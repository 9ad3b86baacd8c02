/**
 What OSEventPendMulti takes when something is available at once. Every event is read as the
 sequence of messages that can still be taken from it, oldest first: one null message for
 each unit of a semaphore, the message of a mailbox, the queued messages of a queue.
 */
module KernelPend {
  import opened Basics
  import opened KernelSpec
  import opened KernelData
  import KernelRuns

  ghost predicate StoreOk(ev: OS_EVENT) {
    ev.OSEventType == TypeQ ==>
      ev.OSEventQ.OSQOut < |ev.OSEventQ.store| && ev.OSEventQ.OSQEntries <= |ev.OSEventQ.store|
  }

  ghost predicate StoresOk(events: seq<OS_EVENT>) {
    forall e | 0 <= e < |events| :: StoreOk(events[e])
  }

  /** The queued messages, from the one OSQOut points to, around the end of the store. */
  ghost function Queued(q: OS_Q): (s: seq<Msg>)
    requires q.OSQOut < |q.store| && q.OSQEntries <= |q.store|
    ensures |s| == q.OSQEntries && forall i | 0 <= i < |s| :: s[i] == q.store[Wrapped(q.OSQOut + i, |q.store|)]
  {
    seq(q.OSQEntries, i requires 0 <= i < q.OSQEntries => q.store[Wrapped(q.OSQOut + i, |q.store|)])
  }

  function Wrapped(k: nat, n: nat): nat { if k < n then k else k - n }

  ghost function Store(ev: OS_EVENT): seq<Msg>
    requires StoreOk(ev)
  {
    match ev.OSEventType
    case TypeSem => seq(ev.OSEventCnt, _ => NULL_MSG)
    case TypeMbox => if ev.OSEventPtr != NULL_MSG then [ev.OSEventPtr] else []
    case TypeQ => Queued(ev.OSEventQ)
    case _ => []
  }

  ghost function Stores(events: seq<OS_EVENT>): (s: seq<seq<Msg>>)
    requires StoresOk(events)
    ensures |s| == |events| && forall e | 0 <= e < |events| :: s[e] == Store(events[e])
  {
    seq(|events|, e requires 0 <= e < |events| => Store(events[e]))
  }

  /** The bit of OSTCBStat for a type of event. */
  function FlagOf(t: EventType): Flag {
    match t
    case TypeSem => Sem
    case TypeMbox => Mbox
    case TypeQ => Q
    case TypeMutex => Mutex
    case _ => EventFlag
  }

  ghost function TypesOf(events: seq<OS_EVENT>): (ts: seq<Flag>)
    ensures |ts| == |events| && forall e | 0 <= e < |events| :: ts[e] == FlagOf(events[e].OSEventType)
  {
    seq(|events|, e requires 0 <= e < |events| => FlagOf(events[e].OSEventType))
  }

  predicate CanPendOn(t: EventType) { t == TypeSem || t == TypeMbox || t == TypeQ }

  /** The first `n` events of a list are of types a task can pend on. */
  ghost predicate CanPendOnFirst(events: seq<OS_EVENT>, es: seq<EventId>, n: nat)
    requires n <= |es|
  {
    n == 0 || (CanPendOnFirst(events, es, n - 1) && es[n - 1] < |events| && CanPendOn(events[es[n - 1]].OSEventType))
  }

  ghost predicate CanPendOnAll(events: seq<OS_EVENT>, es: seq<EventId>) { CanPendOnFirst(events, es, |es|) }

  lemma {:induction false} CanPendOnAt(events: seq<OS_EVENT>, es: seq<EventId>, n: nat, i: nat)
    requires i < n <= |es| && CanPendOnFirst(events, es, n)
    ensures es[i] < |events| && CanPendOn(events[es[i]].OSEventType)
  {
    if i < n - 1 { CanPendOnAt(events, es, n - 1, i); }
  }

  /** Entry `i` of a list of events to pend on. */
  lemma Entry(events: seq<OS_EVENT>, s: seq<Ptr>, i: nat)
    requires EventList(|events|, s) && CanPendOnAll(events, Ids(s)) && i <= |Ids(s)|
    ensures i < |s| && (s[i] == None <==> i == |Ids(s)|)
    ensures i < |Ids(s)| ==> s[i] == Some(Ids(s)[i]) && Ids(s)[i] < |events| && CanPendOn(events[Ids(s)[i]].OSEventType)
  {
    IdsOfList(|events|, s);
    if i < |Ids(s)| { CanPendOnAt(events, Ids(s), |Ids(s)|, i); }
  }

  lemma AllListed(n: nat, s: seq<Ptr>)
    requires EventList(n, s)
    ensures Listed(n, Ids(s))
  {
    IdsOfList(n, s);
  }

  /** `*pq->OSQOut++` with its wrap-around, and one entry less. */
  function Dequeued(q: OS_Q): OS_Q
    requires q.OSQEntries > 0
  {
    q.(OSQOut := if q.OSQOut + 1 == |q.store| then 0 else q.OSQOut + 1, OSQEntries := q.OSQEntries - 1)
  }

  lemma DequeuedIsRest(q: OS_Q)
    requires 0 < q.OSQEntries <= |q.store| && q.OSQOut < |q.store|
    ensures Dequeued(q).OSQOut < |q.store|
    ensures Queued(q) == [q.store[q.OSQOut]] + Queued(Dequeued(q))
  {
    var a, b := Queued(q), [q.store[q.OSQOut]] + Queued(Dequeued(q));
    forall i | 0 <= i < |a| ensures a[i] == b[i] {
      if i > 0 { assert b[i] == Queued(Dequeued(q))[i - 1]; }
    }
  }

  // ---------------------------------------------------------------- what a list of events yields

  datatype Ready = Ready(event: EventId, msg: Msg)

  ghost predicate Listed(n: nat, es: seq<EventId>) {
    forall i | 0 <= i < |es| :: es[i] < n
  }

  /** How often event `e` is among the first `n` entries. */
  ghost function Count(es: seq<EventId>, n: nat, e: EventId): nat
    requires n <= |es|
  {
    if n == 0 then 0 else Count(es, n - 1, e) + if es[n - 1] == e then 1 else 0
  }

  /** How often the event of entry `i` is listed before it. */
  ghost function Turn(es: seq<EventId>, i: nat): nat
    requires i < |es|
  {
    Count(es, i, es[i])
  }

  ghost predicate Available(stores: seq<seq<Msg>>, es: seq<EventId>, i: nat)
    requires i < |es| && es[i] < |stores|
  {
    Turn(es, i) < |stores[es[i]]|
  }

  /** What the first `n` entries of the list yield, in order. */
  ghost function Collected(stores: seq<seq<Msg>>, es: seq<EventId>, n: nat): seq<Ready>
    requires n <= |es| && Listed(|stores|, es)
  {
    if n == 0 then []
    else
      Collected(stores, es, n - 1)
      + if Available(stores, es, n - 1) then [Ready(es[n - 1], stores[es[n - 1]][Turn(es, n - 1)])] else []
  }

  ghost function Taken(stores: seq<seq<Msg>>, es: seq<EventId>, n: nat, e: EventId): (k: nat)
    requires n <= |es| && e < |stores|
    ensures k <= |stores[e]|
  {
    var listed := Count(es, n, e);
    if listed < |stores[e]| then listed else |stores[e]|
  }

  /** What is left in every event after the first `n` entries. */
  ghost function Left(stores: seq<seq<Msg>>, es: seq<EventId>, n: nat): (left: seq<seq<Msg>>)
    requires n <= |es|
    ensures |left| == |stores| && forall e | 0 <= e < |stores| :: left[e] == stores[e][Taken(stores, es, n, e)..]
  {
    seq(|stores|, e requires 0 <= e < |stores| => stores[e][Taken(stores, es, n, e)..])
  }

  lemma LeftAtFirst(stores: seq<seq<Msg>>, es: seq<EventId>)
    ensures Left(stores, es, 0) == stores
  { }

  lemma LeftStep(stores: seq<seq<Msg>>, es: seq<EventId>, n: nat)
    requires n < |es| && es[n] < |stores|
    ensures var e, left := es[n], Left(stores, es, n);
            && (left[e] != [] <==> Available(stores, es, n))
            && (left[e] != [] ==> left[e][0] == stores[e][Turn(es, n)])
            && Left(stores, es, n + 1) == left[e := if left[e] != [] then left[e][1..] else left[e]]
  {
    var e, left, left' := es[n], Left(stores, es, n), Left(stores, es, n + 1);
    assert Turn(es, n) == Count(es, n, e);
    assert left[e] != [] <==> Available(stores, es, n);
    forall x | 0 <= x < |stores| ensures left'[x] == if x == e && left[e] != [] then left[e][1..] else left[x] { }
  }

  /** The messages the collected entries brought from event `e`. */
  ghost function From(got: seq<Ready>, e: EventId): seq<Msg> {
    if got == [] then []
    else From(got[..|got| - 1], e) + if got[|got| - 1].event == e then [got[|got| - 1].msg] else []
  }

  /** Every listed entry has taken a message of its event, oldest first, while there were any. */
  lemma {:induction false} CollectTakesInOrder(stores: seq<seq<Msg>>, es: seq<EventId>, n: nat, e: EventId)
    requires n <= |es| && Listed(|stores|, es) && e < |stores|
    ensures From(Collected(stores, es, n), e) == stores[e][..Taken(stores, es, n, e)]
  {
    if n == 0 {
      assert Taken(stores, es, 0, e) == 0;
      assert Collected(stores, es, 0) == [];
    } else {
      CollectTakesInOrder(stores, es, n - 1, e);
      var k, got, i := Taken(stores, es, n - 1, e), Collected(stores, es, n - 1), es[n - 1];
      if Available(stores, es, n - 1) {
        var last := Ready(i, stores[i][Turn(es, n - 1)]);
        FromLast(got, last, e);
        assert Collected(stores, es, n) == got + [last];
        if i == e {
          assert Taken(stores, es, n, e) == k + 1;
          assert stores[e][..k + 1] == stores[e][..k] + [stores[e][k]];
        }
      } else {
        assert Collected(stores, es, n) == got;
        assert Taken(stores, es, n, e) == k;
      }
    }
  }

  /**
   Nothing is lost, duplicated or reordered: the messages returned for an event followed by
   those left in it are the ones it held.
   */
  lemma CollectConserves(stores: seq<seq<Msg>>, es: seq<EventId>, e: EventId)
    requires Listed(|stores|, es) && e < |stores|
    ensures From(Collected(stores, es, |es|), e) + Left(stores, es, |es|)[e] == stores[e]
  {
    CollectTakesInOrder(stores, es, |es|, e);
    var k := Taken(stores, es, |es|, e);
    assert stores[e] == stores[e][..k] + stores[e][k..];
  }

  lemma FromLast(got: seq<Ready>, last: Ready, e: EventId)
    ensures From(got + [last], e) == From(got, e) + if last.event == e then [last.msg] else []
  {
    assert (got + [last])[..|got|] == got;
  }

  /** Something is collected exactly when an event of the list holds something. */
  lemma {:induction false} CollectsSomething(stores: seq<seq<Msg>>, es: seq<EventId>, n: nat)
    requires n <= |es| && Listed(|stores|, es)
    ensures Collected(stores, es, n) == [] <==> forall i | 0 <= i < n :: stores[es[i]] == []
  {
    if n > 0 {
      CollectsSomething(stores, es, n - 1);
      if forall i | 0 <= i < n - 1 :: stores[es[i]] == [] {
        NothingBefore(stores, es, n - 1, es[n - 1]);
      }
    }
  }

  lemma {:induction false} NothingBefore(stores: seq<seq<Msg>>, es: seq<EventId>, n: nat, e: EventId)
    requires n <= |es| && Listed(|stores|, es) && e < |stores|
    requires forall i | 0 <= i < n :: stores[es[i]] == []
    ensures stores[e] != [] ==> Count(es, n, e) == 0
  {
    if n > 0 { NothingBefore(stores, es, n - 1, e); }
  }

  // ---------------------------------------------------------------- one entry

  /** Only what can be taken from the event has changed, by one message if there was one. */
  ghost predicate OneTaken(ev: OS_EVENT, ev': OS_EVENT, got: bool, msg: Msg)
    requires StoreOk(ev)
  {
    && ev'.OSEventType == ev.OSEventType && ev'.OSEventGrp == ev.OSEventGrp && ev'.OSEventTbl == ev.OSEventTbl
    && StoreOk(ev')
    && got == (Store(ev) != [])
    && (got ==> msg == Store(ev)[0])
    && Store(ev') == if got then Store(ev)[1..] else Store(ev)
  }

  /** Two tables of events that differ at most in what can be taken. */
  ghost predicate SameButStores(a: seq<OS_EVENT>, b: seq<OS_EVENT>) {
    |a| == |b| && forall e | 0 <= e < |a| ::
      b[e].OSEventType == a[e].OSEventType && b[e].OSEventGrp == a[e].OSEventGrp && b[e].OSEventTbl == a[e].OSEventTbl
  }

  lemma OneTakenStores(events: seq<OS_EVENT>, e: nat, ev': OS_EVENT, got: bool, msg: Msg)
    requires StoresOk(events) && e < |events| && OneTaken(events[e], ev', got, msg)
    ensures Round(events, events[e := ev'], e, got, msg)
  { }

  lemma {:induction false} SameWaitLists(lowest: nat, a: seq<OS_EVENT>, b: seq<OS_EVENT>, k: nat)
    requires SameButStores(a, b) && k <= |a| && WaitListsOk(lowest, a, k)
    ensures WaitListsOk(lowest, b, k)
  {
    if k > 0 { SameWaitLists(lowest, a, b, k - 1); }
  }

  /** The scheduler does not see what events hold. */
  lemma StoresDoNotMatter(d: Data, d': Data)
    requires KernelData.Valid(d) && SameButStores(d.events, d'.events) && d' == d.(events := d'.events)
    ensures KernelData.Valid(d') && Abs(d') == Abs(d)
  {
    SameWaitLists(d.lowest, d.events, d'.events, |d.events|);
    assert WaitersOf(d.lowest, d'.events) == WaitersOf(d.lowest, d.events);
  }

  /** The two arrays hold the first `n` of what was collected, entry by entry. */
  ghost predicate AnswersFirst(pevents: seq<Ptr>, pmsgs: seq<Msg>, got: seq<Ready>, n: nat)
    requires n <= |got|
  {
    n == 0 ||
    (AnswersFirst(pevents, pmsgs, got, n - 1)
     && n <= |pevents| && n <= |pmsgs| && pevents[n - 1] == Some(got[n - 1].event) && pmsgs[n - 1] == got[n - 1].msg)
  }

  /** The two arrays hold what was collected. */
  ghost predicate Answers(pevents: seq<Ptr>, pmsgs: seq<Msg>, got: seq<Ready>) {
    AnswersFirst(pevents, pmsgs, got, |got|)
  }

  lemma {:induction false} AnswerAt(pevents: seq<Ptr>, pmsgs: seq<Msg>, got: seq<Ready>, n: nat, i: nat)
    requires i < n <= |got| && AnswersFirst(pevents, pmsgs, got, n)
    ensures i < |pevents| && i < |pmsgs| && pevents[i] == Some(got[i].event) && pmsgs[i] == got[i].msg
  {
    if i < n - 1 { AnswerAt(pevents, pmsgs, got, n - 1, i); }
  }

  lemma {:induction false} SameAnswers(pevents: seq<Ptr>, pmsgs: seq<Msg>, pevents': seq<Ptr>, pmsgs': seq<Msg>,
                                       got: seq<Ready>, got': seq<Ready>, n: nat)
    requires n <= |got| && n <= |got'| && AnswersFirst(pevents, pmsgs, got, n)
    requires |pevents'| == |pevents| && |pmsgs'| == |pmsgs|
    requires (n <= |pevents| && n <= |pmsgs| ==> pevents'[..n] == pevents[..n] && pmsgs'[..n] == pmsgs[..n])
    requires got'[..n] == got[..n]
    ensures AnswersFirst(pevents', pmsgs', got', n)
  {
    if n > 0 {
      assert pevents'[..n - 1] == pevents'[..n][..n - 1] && pmsgs'[..n - 1] == pmsgs'[..n][..n - 1];
      assert pevents[..n - 1] == pevents[..n][..n - 1] && pmsgs[..n - 1] == pmsgs[..n][..n - 1];
      assert got'[..n - 1] == got'[..n][..n - 1] && got[..n - 1] == got[..n][..n - 1];
      SameAnswers(pevents, pmsgs, pevents', pmsgs', got, got', n - 1);
      assert pevents'[n - 1] == pevents'[..n][n - 1] && pmsgs'[n - 1] == pmsgs'[..n][n - 1];
      assert got'[n - 1] == got'[..n][n - 1];
    }
  }

  /** The flags of the first `n` entries. */
  ghost function FlagsOfFirst(events: seq<OS_EVENT>, es: seq<EventId>, n: nat): set<Flag>
    requires n <= |es| && Listed(|events|, es)
  {
    if n == 0 then {} else FlagsOfFirst(events, es, n - 1) + {FlagOf(events[es[n - 1]].OSEventType)}
  }

  lemma {:induction false} SameFlags(a: seq<OS_EVENT>, b: seq<OS_EVENT>, es: seq<EventId>, n: nat)
    requires n <= |es| && Listed(|a|, es) && SameButStores(a, b)
    ensures FlagsOfFirst(a, es, n) == FlagsOfFirst(b, es, n)
  {
    if n > 0 { SameFlags(a, b, es, n - 1); }
  }

  lemma {:induction false} FlagsAre(events: seq<OS_EVENT>, es: seq<EventId>, n: nat)
    requires n <= |es| && Listed(|events|, es)
    ensures FlagsOfFirst(events, es, n) == set e | e in es[..n] :: TypesOf(events)[e]
  {
    if n > 0 {
      FlagsAre(events, es, n - 1);
      assert es[..n] == es[..n - 1] + [es[n - 1]];
      var before, last := set e | e in es[..n - 1] :: TypesOf(events)[e], es[n - 1];
      assert last in es[..n];
      assert (set e | e in es[..n] :: TypesOf(events)[e]) == before + {TypesOf(events)[last]};
    }
  }

  // ---------------------------------------------------------------- the loop over the entries

  /** The events after the first `n` entries of the list. */
  ghost predicate EventsAt(before: seq<OS_EVENT>, events: seq<OS_EVENT>, es: seq<EventId>, n: nat) {
    && n <= |es| && StoresOk(before) && Listed(|before|, es)
    && SameButStores(before, events) && StoresOk(events) && Stores(events) == Left(Stores(before), es, n)
  }

  /** The arrays of answers after the first `n` entries of the list. */
  ghost predicate AnswersAt(stores: seq<seq<Msg>>, es: seq<EventId>, n: nat, nbr: nat, pevents: seq<Ptr>,
                            pmsgs: seq<Msg>) {
    && n <= |es| && Listed(|stores|, es)
    && nbr == |Collected(stores, es, n)| <= n
    && Answers(pevents, pmsgs, Collected(stores, es, n))
  }

  /** The variables of the loop: `n` entries done, `nbr` of them available, `stat` the flags of the others. */
  datatype Loop = Loop(n: nat, nbr: nat, stat: set<Flag>)

  /** Where the loop over the list stands. */
  ghost predicate Progress(before: seq<OS_EVENT>, events: seq<OS_EVENT>, es: seq<EventId>, loop: Loop,
                           pevents: seq<Ptr>, pmsgs: seq<Msg>)
  {
    match loop
    case Loop(n, nbr, stat) =>
      && EventsAt(before, events, es, n)
      && AnswersAt(Stores(before), es, n, nbr, pevents, pmsgs)
      && (nbr == 0 ==> stat == FlagsOfFirst(before, es, n))
  }

  lemma ProgressStarts(before: seq<OS_EVENT>, es: seq<EventId>, pevents: seq<Ptr>, pmsgs: seq<Msg>)
    requires StoresOk(before) && Listed(|before|, es)
    ensures Progress(before, before, es, Loop(0, 0, {}), pevents, pmsgs)
  {
    LeftAtFirst(Stores(before), es);
  }

  /** The effect of one round of the loop on the events. */
  ghost predicate Round(events: seq<OS_EVENT>, events': seq<OS_EVENT>, e: EventId, got: bool, msg: Msg) {
    && e < |events| && StoresOk(events) && StoresOk(events') && SameButStores(events, events')
    && got == (Stores(events)[e] != [])
    && (got ==> msg == Stores(events)[e][0])
    && Stores(events') == Stores(events)[e := if got then Stores(events)[e][1..] else Stores(events)[e]]
  }

  lemma EventsStep(before: seq<OS_EVENT>, events: seq<OS_EVENT>, events': seq<OS_EVENT>, es: seq<EventId>, n: nat,
                   got: bool, msg: Msg)
    requires EventsAt(before, events, es, n) && n < |es| && Round(events, events', es[n], got, msg)
    ensures EventsAt(before, events', es, n + 1)
    ensures Told(Stores(before), es, n, got, msg)
  {
    LeftStep(Stores(before), es, n);
  }

  /** What a round tells about the entry. */
  ghost predicate Told(stores: seq<seq<Msg>>, es: seq<EventId>, n: nat, got: bool, msg: Msg) {
    && n < |es| && es[n] < |stores|
    && got == Available(stores, es, n)
    && (got ==> msg == stores[es[n]][Turn(es, n)])
  }

  lemma AnswersStep(stores: seq<seq<Msg>>, es: seq<EventId>, n: nat, nbr: nat, pevents: seq<Ptr>, pmsgs: seq<Msg>)
    requires AnswersAt(stores, es, n, nbr, pevents, pmsgs) && n < |es|
    ensures !Available(stores, es, n) ==> AnswersAt(stores, es, n + 1, nbr, pevents, pmsgs)
    ensures Available(stores, es, n) && nbr < |pevents| && nbr < |pmsgs| ==>
              AnswersAt(stores, es, n + 1, nbr + 1, pevents[nbr := Some(es[n])],
                        pmsgs[nbr := stores[es[n]][Turn(es, n)]])
  {
    var got := Collected(stores, es, n);
    if !Available(stores, es, n) {
      assert Collected(stores, es, n + 1) == got;
    } else if nbr < |pevents| && nbr < |pmsgs| {
      var x := Ready(es[n], stores[es[n]][Turn(es, n)]);
      assert Collected(stores, es, n + 1) == got + [x];
      SameAnswers(pevents, pmsgs, pevents[nbr := Some(es[n])], pmsgs[nbr := x.msg], got, got + [x], nbr);
    }
  }

  lemma RoundDone(before: seq<OS_EVENT>, events: seq<OS_EVENT>, es: seq<EventId>, loop: Loop, got: bool, msg: Msg,
                  flag: Flag,
                  pevents: seq<Ptr>, pmsgs: seq<Msg>, loop': Loop)
    requires EventsAt(before, events, es, loop.n + 1) && Told(Stores(before), es, loop.n, got, msg)
    requires loop.nbr == 0 ==> loop.stat == FlagsOfFirst(before, es, loop.n)
    requires flag == FlagOf(before[es[loop.n]].OSEventType)
    requires loop' == if got then Loop(loop.n + 1, loop.nbr + 1, loop.stat)
                      else Loop(loop.n + 1, loop.nbr, loop.stat + {flag})
    requires AnswersAt(Stores(before), es, loop'.n, loop'.nbr, pevents, pmsgs)
    ensures Progress(before, events, es, loop', pevents, pmsgs)
  { }

  // ---------------------------------------------------------------- the answers of OSEventPendMulti

  datatype Err =
    | OS_ERR_NONE | OS_ERR_EVENT_TYPE | OS_ERR_PEND_ISR | OS_ERR_PEND_LOCKED | OS_ERR_PEND_ABORT | OS_ERR_TIMEOUT

  /** A call returns at once, or the task has to wait. */
  datatype PendCall = Returns(events_rdy_nbr: nat, perr: Err) | Waits

  /** What is available at once, when the call is allowed. */
  ghost function AvailableNow(events: seq<OS_EVENT>, es: seq<EventId>): seq<Ready>
    requires StoresOk(events) && Listed(|events|, es)
  {
    Collected(Stores(events), es, |es|)
  }

  ghost predicate SameTypes(a: seq<OS_EVENT>, b: seq<OS_EVENT>) {
    |a| == |b| && forall e | 0 <= e < |a| :: b[e].OSEventType == a[e].OSEventType
  }

  /** Everything available has been returned and nothing else has been taken. */
  ghost predicate TookAvailable(before: seq<OS_EVENT>, events: seq<OS_EVENT>, es: seq<EventId>, pevents: seq<Ptr>,
                                pmsgs: seq<Msg>) {
    && StoresOk(before) && Listed(|before|, es) && StoresOk(events)
    && SameTypes(before, events) && Stores(events) == Left(Stores(before), es, |es|)
    && Answers(pevents, pmsgs, AvailableNow(before, es))
    && |AvailableNow(before, es)| < |pevents| && pevents[|AvailableNow(before, es)|] == None
  }

  lemma TookAll(before: seq<OS_EVENT>, events: seq<OS_EVENT>, es: seq<EventId>, nbr: nat, stat: set<Flag>,
                pevents: seq<Ptr>, pmsgs: seq<Msg>)
    requires Progress(before, events, es, Loop(|es|, nbr, stat), pevents, pmsgs) && nbr < |pevents|
    ensures StoresOk(before) && Listed(|before|, es) && nbr == |AvailableNow(before, es)|
    ensures SameButStores(before, events)
    ensures TookAvailable(before, events, es, pevents[nbr := None], pmsgs)
    ensures nbr == 0 ==> stat == KernelRuns.Flags(TypesOf(before), es)
  {
    SameAnswers(pevents, pmsgs, pevents[nbr := None], pmsgs, AvailableNow(before, es), AvailableNow(before, es), nbr);
    if nbr == 0 {
      FlagsAre(before, es, |es|);
      assert es[..|es|] == es;
    }
  }

  // ---------------------------------------------------------------- the same on the fields of the events

  lemma {:induction false} CountIs(es: seq<EventId>, n: nat, e: EventId)
    requires n <= |es|
    ensures Count(es, n, e) == multiset(es[..n])[e]
  {
    if n > 0 {
      CountIs(es, n - 1, e);
      assert es[..n] == es[..n - 1] + [es[n - 1]];
    }
  }

  /** Nothing is available exactly when every listed semaphore is zero, mailbox empty and queue without entries. */
  lemma NothingAvailable(events: seq<OS_EVENT>, es: seq<EventId>)
    requires StoresOk(events) && Listed(|events|, es)
    ensures AvailableNow(events, es) == [] <==>
            forall i | 0 <= i < |es| ::
              match events[es[i]].OSEventType
              case TypeSem => events[es[i]].OSEventCnt == 0
              case TypeMbox => events[es[i]].OSEventPtr == NULL_MSG
              case TypeQ => events[es[i]].OSEventQ.OSQEntries == 0
              case _ => true
  {
    CollectsSomething(Stores(events), es, |es|);
  }

  /** `v` less `n`, but not below zero. */
  function Minus(v: nat, n: nat): nat { if n < v then v - n else 0 }

  lemma WhatRemains(before: OS_EVENT, after: OS_EVENT, listed: nat, k: nat)
    requires StoreOk(before) && StoreOk(after) && after.OSEventType == before.OSEventType
    requires k == (if listed < |Store(before)| then listed else |Store(before)|)
    requires Store(after) == Store(before)[k..]
    ensures match before.OSEventType
            case TypeSem => after.OSEventCnt == Minus(before.OSEventCnt, listed)
            case TypeMbox => after.OSEventPtr == if listed > 0 then NULL_MSG else before.OSEventPtr
            case TypeQ => after.OSEventQ.OSQEntries == Minus(before.OSEventQ.OSQEntries, listed)
            case _ => true
  {
    hide Queued;
    assert |Store(after)| == |Store(before)| - k;
    if before.OSEventType == TypeMbox && before.OSEventPtr != NULL_MSG && listed == 0 {
      assert Store(after)[0] == Store(before)[0];
    }
  }

  /** What the call leaves in an event: a counter goes down by as often as it is listed, and a mailbox is emptied. */
  lemma WhatIsLeft(before: seq<OS_EVENT>, events: seq<OS_EVENT>, es: seq<EventId>, pevents: seq<Ptr>, pmsgs: seq<Msg>,
                   e: EventId)
    requires TookAvailable(before, events, es, pevents, pmsgs) && e < |before|
    ensures var listed := multiset(es)[e];
            match before[e].OSEventType
            case TypeSem => events[e].OSEventCnt == Minus(before[e].OSEventCnt, listed)
            case TypeMbox => events[e].OSEventPtr == if listed > 0 then NULL_MSG else before[e].OSEventPtr
            case TypeQ => events[e].OSEventQ.OSQEntries == Minus(before[e].OSEventQ.OSQEntries, listed)
            case _ => true
  {
    hide Store, Count, Answers, AvailableNow;
    CountIs(es, |es|, e);
    assert es[..|es|] == es;
    WhatRemains(before[e], events[e], multiset(es)[e], Taken(Stores(before), es, |es|, e));
  }

  /** What the call returns of an event: null for a semaphore, the message of a mailbox, the oldest ones of a queue. */
  lemma WhatIsTaken(events: seq<OS_EVENT>, es: seq<EventId>, e: EventId)
    requires StoresOk(events) && Listed(|events|, es) && e < |events|
    ensures var listed, ev, got := multiset(es)[e], events[e], From(AvailableNow(events, es), e);
            match ev.OSEventType
            case TypeSem =>
              |got| == ev.OSEventCnt - Minus(ev.OSEventCnt, listed) && forall i | 0 <= i < |got| :: got[i] == NULL_MSG
            case TypeMbox =>
              got == if listed > 0 && ev.OSEventPtr != NULL_MSG then [ev.OSEventPtr] else []
            case TypeQ =>
              && |got| == ev.OSEventQ.OSQEntries - Minus(ev.OSEventQ.OSQEntries, listed)
              && forall i | 0 <= i < |got| ::
                   got[i] == ev.OSEventQ.store[Wrapped(ev.OSEventQ.OSQOut + i, |ev.OSEventQ.store|)]
            case _ => got == []
  {
    hide Count, Queued, Collected, Wrapped;
    CountIs(es, |es|, e);
    assert es[..|es|] == es;
    CollectTakesInOrder(Stores(events), es, |es|, e);
  }

  /** A pend that finds all its events empty takes nothing from any. */
  lemma NothingLeft(stores: seq<seq<Msg>>, es: seq<EventId>, n: nat)
    requires n <= |es| && Listed(|stores|, es) && forall i | 0 <= i < n :: stores[es[i]] == []
    ensures Left(stores, es, n) == stores
  {
    forall e | 0 <= e < |stores| ensures Taken(stores, es, n, e) == 0 {
      NothingBefore(stores, es, n, e);
    }
  }

  /** Two tables of events that hold the same, whoever waits for them. */
  ghost predicate SameHoldings(a: seq<OS_EVENT>, b: seq<OS_EVENT>) {
    |a| == |b| && forall e | 0 <= e < |a| ::
      b[e].OSEventType == a[e].OSEventType && b[e].OSEventPtr == a[e].OSEventPtr
      && b[e].OSEventQ == a[e].OSEventQ && b[e].OSEventCnt == a[e].OSEventCnt
  }

  lemma WaitingHolds(events: seq<OS_EVENT>, e: nat, t: OS_TCB)
    requires e < |events| && t.OSTCBY < |events[e].OSEventTbl|
    ensures SameHoldings(events, events[e := Waiting(events[e], t)])
  { }

  lemma SameHoldingsTwice(a: seq<OS_EVENT>, b: seq<OS_EVENT>, c: seq<OS_EVENT>)
    requires SameHoldings(a, b) && SameHoldings(b, c)
    ensures SameHoldings(a, c)
  { }

  lemma TookAvailableKept(before: seq<OS_EVENT>, events: seq<OS_EVENT>, events': seq<OS_EVENT>, es: seq<EventId>,
                          pevents: seq<Ptr>, pmsgs: seq<Msg>)
    requires TookAvailable(before, events, es, pevents, pmsgs) && SameHoldings(events, events')
    ensures TookAvailable(before, events', es, pevents, pmsgs)
  {
    SameHoldingsStores(events, events');
  }

  lemma SameHoldingsStores(a: seq<OS_EVENT>, b: seq<OS_EVENT>)
    requires SameHoldings(a, b) && StoresOk(a)
    ensures StoresOk(b) && Stores(b) == Stores(a) && TypesOf(b) == TypesOf(a)
  { }

  /** The list has an event of this type. */
  ghost predicate Lists(events: seq<OS_EVENT>, es: seq<EventId>, kind: EventType) {
    exists i | 0 <= i < |es| :: es[i] < |events| && events[es[i]].OSEventType == kind
  }

  /** OSTCBStat of a task that has begun to wait for the events of a list: a bit for each type of event in it. */
  ghost predicate WaitingStat(was: set<Flag>, stat: set<Flag>, events: seq<OS_EVENT>, es: seq<EventId>) {
    && Multi in stat
    && (Sem in stat <==> Sem in was || Lists(events, es, TypeSem))
    && (Mbox in stat <==> Mbox in was || Lists(events, es, TypeMbox))
    && (Q in stat <==> Q in was || Lists(events, es, TypeQ))
    && (Suspend in stat <==> Suspend in was)
    && (Mutex in stat <==> Mutex in was) && (EventFlag in stat <==> EventFlag in was)
  }

  /** Its TCB. */
  ghost predicate IsWaiting(was: OS_TCB, t: OS_TCB, events: seq<OS_EVENT>, pevents: seq<Ptr>, timeout: nat) {
    && t == was.(OSTCBStat := t.OSTCBStat, OSTCBStatPend := PendOk, OSTCBDly := timeout,
                 OSTCBEventPtr := None, OSTCBEventMultiPtr := Some(pevents))
    && WaitingStat(was.OSTCBStat, t.OSTCBStat, events, Ids(pevents))
  }

  /** The types of the events in any table are types of events to the runs. */
  lemma TypesAreEventTypes(events: seq<OS_EVENT>)
    ensures KernelRuns.EventTypes(TypesOf(events))
  { }

  /** Those of a list that passes the check are semaphores, mailboxes and queues, each with its own bit. */
  lemma ListedTypes(events: seq<OS_EVENT>, es: seq<EventId>, i: nat)
    requires CanPendOnAll(events, es) && i < |es|
    ensures es[i] < |events|
    ensures match events[es[i]].OSEventType
            case TypeSem => TypesOf(events)[es[i]] == Sem
            case TypeMbox => TypesOf(events)[es[i]] == Mbox
            case TypeQ => TypesOf(events)[es[i]] == Q
            case _ => false
  {
    CanPendOnAt(events, es, |es|, i);
  }

  /** A list passes the check exactly when all its events are of these types. */
  lemma {:induction false} CheckIsExact(events: seq<OS_EVENT>, es: seq<EventId>, n: nat)
    requires n <= |es| && Listed(|events|, es)
    ensures CanPendOnFirst(events, es, n) <==>
            forall i | 0 <= i < n :: events[es[i]].OSEventType in {TypeSem, TypeMbox, TypeQ}
  {
    if n > 0 { CheckIsExact(events, es, n - 1); }
  }

  lemma FlagsAreWaitingStat(events: seq<OS_EVENT>, es: seq<EventId>, was: set<Flag>)
    requires Listed(|events|, es) && CanPendOnAll(events, es)
    ensures WaitingStat(was, was + (KernelRuns.Flags(TypesOf(events), es) + {Multi}), events, es)
  {
    var flags := KernelRuns.Flags(TypesOf(events), es);
    forall f ensures f in flags <==> exists i | 0 <= i < |es| :: TypesOf(events)[es[i]] == f {
      if f in flags {
        var e :| e in es && TypesOf(events)[e] == f;
        var i :| 0 <= i < |es| && es[i] == e;
      }
      if i :| 0 <= i < |es| && TypesOf(events)[es[i]] == f { assert es[i] in es; }
    }
    forall i | 0 <= i < |es|
      ensures TypesOf(events)[es[i]] in {Sem, Mbox, Q}
      ensures TypesOf(events)[es[i]] == Sem <==> events[es[i]].OSEventType == TypeSem
      ensures TypesOf(events)[es[i]] == Mbox <==> events[es[i]].OSEventType == TypeMbox
      ensures TypesOf(events)[es[i]] == Q <==> events[es[i]].OSEventType == TypeQ
    {
      ListedTypes(events, es, i);
    }
  }

  lemma IsWaitingNow(was: OS_TCB, t: OS_TCB, events: seq<OS_EVENT>, pevents: seq<Ptr>, stat: set<Flag>, timeout: nat)
    requires Listed(|events|, Ids(pevents)) && CanPendOnAll(events, Ids(pevents))
    requires stat == KernelRuns.Flags(TypesOf(events), Ids(pevents))
    requires t == was.(OSTCBStat := was.OSTCBStat + (stat + {Multi}), OSTCBStatPend := PendOk, OSTCBDly := timeout,
                       OSTCBEventPtr := None, OSTCBEventMultiPtr := Some(pevents))
    ensures IsWaiting(was, t, events, pevents, timeout)
  {
    FlagsAreWaitingStat(events, Ids(pevents), was.OSTCBStat);
  }

  /** What OSEventPendMulti returns once it has waited; `kind` is the type of the event, `had` the old message. */
  ghost predicate AnswerIs(o: Outcome, kind: EventType, had: Msg, nbr: nat, perr: Err, pevents: seq<Ptr>,
                           pmsgs: seq<Msg>) {
    && nbr < |pevents| && pevents[nbr] == None && 0 < |pmsgs|
    && match o
       case TimedOut => nbr == 0 && perr == OS_ERR_TIMEOUT && pmsgs[0] == NULL_MSG
       case Aborted(e) => nbr == 1 && perr == OS_ERR_PEND_ABORT && pevents[0] == Some(e) && pmsgs[0] == NULL_MSG
       case Posted(e, msg) =>
         && nbr == 1 && pevents[0] == Some(e)
         && perr == (if CanPendOn(kind) then OS_ERR_NONE else OS_ERR_EVENT_TYPE)
         && pmsgs[0] == if !CanPendOn(kind) then had else if kind == TypeSem then NULL_MSG else msg
  }
}
