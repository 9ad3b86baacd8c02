/**
 The alarm facility of the HAL. Alarms keep their due time in a 32-bit word that wraps around
 with the tick counter, and a flag for a due time beyond the next wrap; this is compared with
 timers that count ticks without bound.
 */
module Alarms {
  import opened Basics

  datatype Alarm = Alarm(id: nat, time: U32, rollover: bool)

  /** What an alarm stands for: the tick at which its callback is due, counted from reset. */
  datatype Timer = Timer(id: nat, due: nat)

  // ---------------------------------------------------------------- one alarm

  /** alt_alarm_start, on the tick counter `c`. */
  function Started(id: nat, nticks: U32, c: U32): Alarm {
    var time := (nticks + c + 1) % WORD;
    Alarm(id, time, time < c)
  }

  /** The roll-over flag is cleared when the counter wraps around. */
  function Looked(a: Alarm, c: U32): Alarm { a.(rollover := a.rollover && c != 0) }

  predicate Expired(a: Alarm, c: U32) { a.time <= c && !a.rollover }

  /** An alarm whose callback has returned `period`. */
  function Rearmed(a: Alarm, c: U32, period: U32): Alarm {
    var time := (a.time + period) % WORD;
    a.(time := time, rollover := if time < c then true else a.rollover)
  }

  /** What alt_tick does to one alarm, after counting to `c`; None when it is unregistered. */
  function Ticked(a: Alarm, c: U32, period: U32): Option<Alarm> {
    var a' := Looked(a, c);
    if !Expired(a', c) then Some(a')
    else if period == 0 then None
    else Some(Rearmed(a', c, period))
  }

  /** The same with unbounded time. */
  function TimerTicked(t: Timer, now: nat, period: U32): Option<Timer> {
    if t.due != now then Some(t)
    else if period == 0 then None
    else Some(t.(due := t.due + period))
  }

  /** After `now` ticks, the alarm stands for the timer: its flag will be right at the next tick. */
  predicate Tracks(now: nat, a: Alarm, t: Timer) {
    && a.id == t.id
    && now < t.due <= now + WORD
    && a.time == t.due % WORD
    && (a.rollover && (now + 1) % WORD != 0 <==> t.due / WORD > (now + 1) / WORD)
  }

  /** A caller of alt_alarm_start can see from the counter whether the alarm will be on time. */
  predicate OnTime(nticks: U32, c: U32) { nticks < WORD - 1 || c == WORD - 1 }

  lemma StartTracks(id: nat, nticks: U32, now: nat)
    ensures Tracks(now, Started(id, nticks, now % WORD), Timer(id, now + nticks + 1)) <==> OnTime(nticks, now % WORD)
  { }

  /** Every tick keeps an alarm and its timer together: they expire at the same tick and are re-armed alike. */
  lemma TickTracks(now: nat, a: Alarm, t: Timer, period: U32)
    requires Tracks(now, a, t)
    ensures Expired(Looked(a, (now + 1) % WORD), (now + 1) % WORD) <==> t.due == now + 1
    ensures Ticked(a, (now + 1) % WORD, period).Some? <==> TimerTicked(t, now + 1, period).Some?
    ensures Ticked(a, (now + 1) % WORD, period).Some? ==>
              Tracks(now + 1, Ticked(a, (now + 1) % WORD, period).value, TimerTicked(t, now + 1, period).value)
  { }

  // ---------------------------------------------------------------- when an alarm fires

  /** The alarm after `k` ticks in which its callback is not made. */
  function Waited(a: Alarm, now: nat, k: nat): Alarm
    decreases k
  {
    if k == 0 then a else Waited(Looked(a, (now + 1) % WORD), now + 1, k - 1)
  }

  /** The first callback is made at the `k`-th tick from `now`. */
  predicate FiresFirstAfter(a: Alarm, now: nat, k: nat)
    decreases k
  {
    && k > 0
    && var c := (now + 1) % WORD;
       var a' := Looked(a, c);
       if k == 1 then Expired(a', c) else !Expired(a', c) && FiresFirstAfter(a', now + 1, k - 1)
  }

  lemma {:induction false} TrackedFires(a: Alarm, now: nat, t: Timer)
    requires Tracks(now, a, t)
    ensures FiresFirstAfter(a, now, t.due - now)
    ensures var last := Waited(a, now, t.due - now); last.id == a.id && last.time == a.time && !last.rollover
    decreases t.due - now
  {
    TickTracks(now, a, t, 0);
    if t.due > now + 1 {
      TrackedFires(Looked(a, (now + 1) % WORD), now + 1, t);
    } else {
      assert Waited(Looked(a, (now + 1) % WORD), now + 1, 0) == Looked(a, (now + 1) % WORD);
    }
  }

  lemma FiresOnlyOnce(a: Alarm, now: nat, k: nat, m: nat)
    requires FiresFirstAfter(a, now, k) && FiresFirstAfter(a, now, m)
    ensures k == m
    decreases k
  {
    if k > 1 && m > 1 { FiresOnlyOnce(Looked(a, (now + 1) % WORD), now + 1, k - 1, m - 1); }
  }

  /**
   The alarm is first called back `nticks + 1` ticks after alt_alarm_start exactly when `nticks`
   is not the largest value, or the counter has just reached its own.
   */
  lemma FirstFiring(id: nat, nticks: U32, now: nat)
    ensures FiresFirstAfter(Started(id, nticks, now % WORD), now, nticks + 1) <==> OnTime(nticks, now % WORD)
  {
    var a, t := Started(id, nticks, now % WORD), Timer(id, now + nticks + 1);
    StartTracks(id, nticks, now);
    if OnTime(nticks, now % WORD) {
      TrackedFires(a, now, t);
    } else {
      assert FiresFirstAfter(a, now, 1);
    }
  }

  /** The alarm is next called back after `wait` ticks, and then always after the period its callback returned. */
  predicate OnSchedule(a: Alarm, now: nat, wait: nat, periods: seq<U32>)
    decreases |periods|
  {
    && FiresFirstAfter(a, now, wait)
    && (periods != [] ==>
          var c := (now + wait) % WORD;
          OnSchedule(Rearmed(Waited(a, now, wait), c, periods[0]), now + wait, periods[0], periods[1..]))
  }

  lemma {:induction false} TrackedIsOnSchedule(a: Alarm, now: nat, t: Timer, periods: seq<U32>)
    requires Tracks(now, a, t) && forall i | 0 <= i < |periods| :: periods[i] > 0
    ensures OnSchedule(a, now, t.due - now, periods)
    decreases |periods|
  {
    TrackedFires(a, now, t);
    if periods != [] {
      var last := Waited(a, now, t.due - now);
      var a' := Rearmed(last, t.due % WORD, periods[0]);
      RearmedTracks(last, t, periods[0]);
      TrackedIsOnSchedule(a', t.due, t.(due := t.due + periods[0]), periods[1..]);
    }
  }

  lemma RearmedTracks(a: Alarm, t: Timer, period: U32)
    requires a.id == t.id && a.time == t.due % WORD && !a.rollover && period > 0
    ensures Tracks(t.due, Rearmed(a, t.due % WORD, period), t.(due := t.due + period))
  { }

  /**
   Started on time, an alarm is on time for ever, however often the counter wraps around: the
   callbacks come `nticks + 1` ticks after the start and then after every returned period.
   */
  lemma OnTimeForEver(id: nat, nticks: U32, now: nat, periods: seq<U32>)
    requires OnTime(nticks, now % WORD) && forall i | 0 <= i < |periods| :: periods[i] > 0
    ensures OnSchedule(Started(id, nticks, now % WORD), now, nticks + 1, periods)
  {
    StartTracks(id, nticks, now);
    TrackedIsOnSchedule(Started(id, nticks, now % WORD), now, Timer(id, now + nticks + 1), periods);
  }

  function Sum(periods: seq<U32>, k: nat): nat
    requires k <= |periods|
  {
    if k == 0 then 0 else periods[0] + Sum(periods[1..], k - 1)
  }

  /** The ticks, counted from reset, of the callbacks of an alarm on schedule. */
  function Instants(a: Alarm, now: nat, wait: nat, periods: seq<U32>): (r: seq<nat>)
    requires OnSchedule(a, now, wait, periods)
    ensures |r| == |periods| + 1
    decreases |periods|
  {
    [now + wait]
    + if periods == [] then []
      else Instants(Rearmed(Waited(a, now, wait), (now + wait) % WORD, periods[0]), now + wait, periods[0],
                    periods[1..])
  }

  /** The callback number `k` comes the first `k` periods after the first one. */
  lemma {:induction false} KthFiring(a: Alarm, now: nat, wait: nat, periods: seq<U32>, k: nat)
    requires OnSchedule(a, now, wait, periods) && k <= |periods|
    ensures Instants(a, now, wait, periods)[k] == now + wait + Sum(periods, k)
    decreases |periods|
  {
    if k > 0 {
      var a' := Rearmed(Waited(a, now, wait), (now + wait) % WORD, periods[0]);
      KthFiring(a', now + wait, periods[0], periods[1..], k - 1);
    }
  }

  // ---------------------------------------------------------------- the list of alarms

  /** alt_tick on the list, in its order; `callback` gives what the callback of an alarm returns. */
  function TickedAll(list: seq<Alarm>, c: U32, callback: nat -> U32): (r: seq<Alarm>)
    ensures |r| <= |list|
  {
    if list == [] then []
    else
      var a := Ticked(list[0], c, callback(list[0].id));
      (if a.Some? then [a.value] else []) + TickedAll(list[1..], c, callback)
  }

  /** The alarms called back, in the order of the list. */
  function Called(list: seq<Alarm>, c: U32): seq<nat> {
    if list == [] then []
    else (if Expired(Looked(list[0], c), c) then [list[0].id] else []) + Called(list[1..], c)
  }

  function TimersTicked(list: seq<Timer>, now: nat, callback: nat -> U32): seq<Timer> {
    if list == [] then []
    else
      var t := TimerTicked(list[0], now, callback(list[0].id));
      (if t.Some? then [t.value] else []) + TimersTicked(list[1..], now, callback)
  }

  function Due(list: seq<Timer>, now: nat): seq<nat> {
    if list == [] then []
    else (if list[0].due == now then [list[0].id] else []) + Due(list[1..], now)
  }

  predicate TracksAll(now: nat, list: seq<Alarm>, timers: seq<Timer>) {
    |list| == |timers| && forall i | 0 <= i < |list| :: Tracks(now, list[i], timers[i])
  }

  lemma {:induction false} TickTracksAll(now: nat, list: seq<Alarm>, timers: seq<Timer>, callback: nat -> U32)
    requires TracksAll(now, list, timers)
    ensures TracksAll(now + 1, TickedAll(list, (now + 1) % WORD, callback), TimersTicked(timers, now + 1, callback))
    ensures Called(list, (now + 1) % WORD) == Due(timers, now + 1)
  {
    if list != [] {
      TickTracks(now, list[0], timers[0], callback(list[0].id));
      TickTracksAll(now, list[1..], timers[1..], callback);
    }
  }

  // ---------------------------------------------------------------- runs

  datatype Step = Start(id: nat, nticks: U32) | Stop(index: nat) | Tick(callback: nat -> U32)

  /** The counter and the list, and the alarms called back so far. */
  datatype System = System(c: U32, list: seq<Alarm>, called: seq<nat>)

  datatype Ideal = Ideal(now: nat, timers: seq<Timer>, called: seq<nat>)

  function Next(s: System, step: Step): System {
    match step
    case Start(id, nticks) => s.(list := [Started(id, nticks, s.c)] + s.list)
    case Stop(i) => if i < |s.list| then s.(list := s.list[..i] + s.list[i + 1..]) else s
    case Tick(callback) =>
      var c := (s.c + 1) % WORD;
      System(c, TickedAll(s.list, c, callback), s.called + Called(s.list, c))
  }

  function IdealNext(s: Ideal, step: Step): Ideal {
    match step
    case Start(id, nticks) => s.(timers := [Timer(id, s.now + nticks + 1)] + s.timers)
    case Stop(i) => if i < |s.timers| then s.(timers := s.timers[..i] + s.timers[i + 1..]) else s
    case Tick(callback) =>
      Ideal(s.now + 1, TimersTicked(s.timers, s.now + 1, callback), s.called + Due(s.timers, s.now + 1))
  }

  function Run(s: System, steps: seq<Step>): System
    decreases |steps|
  {
    if steps == [] then s else Run(Next(s, steps[0]), steps[1..])
  }

  function IdealRun(s: Ideal, steps: seq<Step>): Ideal
    decreases |steps|
  {
    if steps == [] then s else IdealRun(IdealNext(s, steps[0]), steps[1..])
  }

  /** Every alt_alarm_start of the run is on time. */
  predicate StartsOnTime(s: System, steps: seq<Step>)
    decreases |steps|
  {
    steps == []
    || ((steps[0].Start? ==> OnTime(steps[0].nticks, s.c)) && StartsOnTime(Next(s, steps[0]), steps[1..]))
  }

  predicate Refines(s: System, i: Ideal) {
    s.c == i.now % WORD && TracksAll(i.now, s.list, i.timers) && s.called == i.called
  }

  lemma StepRefines(s: System, i: Ideal, step: Step)
    requires Refines(s, i) && (step.Start? ==> OnTime(step.nticks, s.c))
    ensures Refines(Next(s, step), IdealNext(i, step))
  {
    match step {
      case Start(id, nticks) => StartTracks(id, nticks, i.now);
      case Stop(_) =>
      case Tick(callback) => TickRefines(s, i, callback);
    }
  }

  lemma TickRefines(s: System, i: Ideal, callback: nat -> U32)
    requires Refines(s, i)
    ensures Refines(Next(s, Tick(callback)), IdealNext(i, Tick(callback)))
  {
    assert (s.c + 1) % WORD == (i.now + 1) % WORD;
    TickTracksAll(i.now, s.list, i.timers, callback);
  }

  /** Wrapped counters and flags behave like unbounded time over every run: the same callbacks in the same order. */
  lemma {:induction false} RunRefines(s: System, i: Ideal, steps: seq<Step>)
    requires Refines(s, i) && StartsOnTime(s, steps)
    ensures Refines(Run(s, steps), IdealRun(i, steps))
    decreases |steps|
  {
    if steps != [] {
      StepRefines(s, i, steps[0]);
      RunRefines(Next(s, steps[0]), IdealNext(i, steps[0]), steps[1..]);
    }
  }

  // ---------------------------------------------------------------- the code

  /** The return value of alt_alarm_start: 0, -ENOTSUP or -EINVAL. */
  datatype StartResult = Success | NotSupported | Invalid

  class AlarmTimer {
    var alt_tick_rate: U32            // 0 while there is no system clock
    var alt_nticks: U32
    var alt_alarm_list: seq<Alarm>

    /** alt_alarm_start, for a null pointer or an alarm that is in no list. */
    method alt_alarm_start(alarm: Option<nat>, nticks: U32) returns (r: StartResult)
      modifies `alt_alarm_list
      ensures r == if alt_tick_rate == 0 then NotSupported else if alarm == None then Invalid else Success
      ensures !r.Success? ==> alt_alarm_list == old(alt_alarm_list)
      ensures r.Success? ==>
                alt_alarm_list == Next(System(alt_nticks, old(alt_alarm_list), []), Start(alarm.value, nticks)).list
    {
      if alt_tick_rate == 0 {
        return NotSupported;
      }
      if alarm == None {
        return Invalid;
      }
      var current_nticks := alt_nticks;
      var time: U32 := (nticks + current_nticks + 1) % WORD;
      var rollover;
      if time < current_nticks {
        rollover := true;
      } else {
        rollover := false;
      }
      alt_alarm_list := [Alarm(alarm.value, time, rollover)] + alt_alarm_list;
      r := Success;
    }

    /** alt_tick: the walk over the list goes on with the next alarm when one is unregistered. */
    method alt_tick(callback: nat -> U32) returns (called: seq<nat>)
      modifies `alt_nticks, `alt_alarm_list
      ensures System(alt_nticks, alt_alarm_list, called)
           == Next(System(old(alt_nticks), old(alt_alarm_list), []), Tick(callback))
    {
      alt_nticks := (alt_nticks + 1) % WORD;
      called := [];
      var rest := alt_alarm_list;
      var seen: seq<Alarm> := [];
      while rest != []
        invariant alt_alarm_list == seen + rest
        invariant seen + TickedAll(rest, alt_nticks, callback) == TickedAll(old(alt_alarm_list), alt_nticks, callback)
        invariant called + Called(rest, alt_nticks) == Called(old(alt_alarm_list), alt_nticks)
        invariant alt_nticks == (old(alt_nticks) + 1) % WORD
        decreases |rest|
      {
        var alarm := rest[0];
        var kept, fired := TickAlarm(alarm, alt_nticks, callback);
        TickedSplits(seen, rest, alt_nticks, callback);
        CalledSplits(called, rest, alt_nticks);
        rest := rest[1..];
        if fired {
          called := called + [alarm.id];
        }
        if kept.Some? {
          seen := seen + [kept.value];
        }
        alt_alarm_list := seen + rest;
      }
    }

    /** The body of the loop: what becomes of one alarm. */
    static method TickAlarm(alarm: Alarm, nticks: U32, callback: nat -> U32) returns (kept: Option<Alarm>, fired: bool)
      ensures kept == Ticked(alarm, nticks, callback(alarm.id))
      ensures fired == Expired(Looked(alarm, nticks), nticks)
    {
      var a := alarm;
      if a.rollover && nticks == 0 {
        a := a.(rollover := false);
      }
      fired := a.time <= nticks && !a.rollover;
      if fired {
        var next_callback := callback(a.id);
        if next_callback == 0 {
          return None, fired;
        }
        a := a.(time := (a.time + next_callback) % WORD);
        if a.time < nticks {
          a := a.(rollover := true);
        }
      }
      kept := Some(a);
    }
  }

  lemma TickedSplits(seen: seq<Alarm>, rest: seq<Alarm>, c: U32, callback: nat -> U32)
    requires rest != []
    ensures var a := Ticked(rest[0], c, callback(rest[0].id));
            seen + TickedAll(rest, c, callback)
            == (if a.Some? then seen + [a.value] else seen) + TickedAll(rest[1..], c, callback)
  { }

  lemma CalledSplits(called: seq<nat>, rest: seq<Alarm>, c: U32)
    requires rest != []
    ensures called + Called(rest, c)
         == (if Expired(Looked(rest[0], c), c) then called + [rest[0].id] else called) + Called(rest[1..], c)
  { }
}
