/**
 Wall-clock time and sleeping on a tick counter: settimeofday records an offset, gettimeofday
 adds the elapsed ticks to it, and usleep splits its time into ticks and a busy rest. Words
 are 32 bits wide; settimeofday multiplies in 32 bits, gettimeofday in 64.
 */
module Clock {
  import opened Basics
  import opened Arithmetic

  const ALT_US := 1000000

  /** struct timeval, with 32-bit signed fields. */
  datatype Timeval = Timeval(sec: int, usec: int)

  /** A word read as a signed number. */
  function Int32(v: int): int { (v + WORD / 2) % WORD - WORD / 2 }

  /** At this tick rate a tick takes `u` whole microseconds. */
  predicate TickTakes(rate: nat, u: nat) { rate > 0 && u > 0 && Product(rate, u) == ALT_US }

  function Microseconds(t: Timeval): int { t.sec * ALT_US + t.usec }

  // ---------------------------------------------------------------- ticks as microseconds

  lemma TickLength(rate: nat, u: nat)
    requires TickTakes(rate, u)
    ensures ALT_US / rate == u > 0 && rate <= ALT_US
  {
    TimesIs(rate, u);
    TimesIs(u, rate);
    UniqueQuotient(ALT_US, u, 0, rate);
    TimesAtLeast(u, rate);
    TimesAtLeast(rate, u);
  }

  lemma UniqueQuotient(v: nat, q: nat, r: nat, d: nat)
    requires d > 0 && v == Times(q, d) + r && r < d
    ensures v / d == q
  {
    Division(v, d);
    if v / d < q { TimesGrows(v / d + 1, q, d); }
    if q < v / d { TimesGrows(q + 1, v / d, d); }
  }

  /** The seconds of `n` ticks. */
  lemma TicksAre(n: nat, rate: nat, u: nat)
    requires TickTakes(rate, u)
    ensures Times(n, u) / ALT_US == n / rate
  {
    Division(n, rate);
    SecondsAre(n / rate, n % rate, rate, u);
  }

  lemma SecondsAre(q: nat, r: nat, rate: nat, u: nat)
    requires TickTakes(rate, u) && r < rate
    ensures Times(Times(q, rate) + r, u) / ALT_US == q
  {
    TickLength(rate, u);
    TimesAdd(Times(q, rate), r, u);
    TimesTwice(q, rate, u);
    TimesIs(q, ALT_US);
    TimesGrows(r + 1, rate, u);
    Quotient(Times(Times(q, rate) + r, u), q, Times(r, u));
  }

  lemma Quotient(v: nat, q: nat, r: nat)
    requires v == q * ALT_US + r && r < ALT_US
    ensures v / ALT_US == q && v % ALT_US == r
  { }

  // ---------------------------------------------------------------- set and get

  /** alt_resettime after ALT_SETTIMEOFDAY, `secs` and `us` being the whole seconds and the microseconds since reset. */
  function Reset(t: Timeval, secs: nat, us: nat): Timeval {
    Timeval(Int32(t.sec - secs), Int32(t.usec - Word(us) % ALT_US))
  }

  /** What ALT_GETTIMEOFDAY adds up, before it normalises it. */
  function Elapsed(reset: Timeval, secs: nat, us: nat): Timeval {
    Timeval(Int32(reset.sec + secs), Int32(reset.usec + us % ALT_US))
  }

  /** The microseconds of `n` ticks, in 64 bits. */
  function Micros(n: nat, rate: nat): (us: nat)
    requires rate > 0
    ensures us == Times(n, ALT_US / rate)
  {
    TimesIs(n, ALT_US / rate);
    n * (ALT_US / rate)
  }

  /** alt_resettime after the time `t` has been set at tick `n`. */
  function ResetAt(t: Timeval, n: U32, rate: nat): Timeval
    requires rate > 0
  {
    Reset(t, n / rate, Micros(n, rate))
  }

  /** The time read when the tick counter is at `m`. */
  function ReadAt(reset: Timeval, m: U32, rate: nat): Timeval
    requires rate > 0
  {
    Read(Elapsed(reset, m / rate, Micros(m, rate)))
  }

  /** A time after 1970 in normal form; times before it read as zero. */
  function Normal(t: Timeval): Timeval {
    var us := Microseconds(t);
    if us < 0 then Timeval(0, 0) else Timeval(us / ALT_US, us % ALT_US)
  }

  /** What its loops make of it. */
  function Read(t: Timeval): Timeval {
    if t.usec < 0 then Normal(t) else Timeval(t.sec + t.usec / ALT_US, t.usec % ALT_US)
  }

  /**
   The product that settimeofday keeps in 32 bits has the right rest after division by a
   million. It does not take that the product fits: what is lost may be a multiple of a million.
   */
  predicate RestIsRight(product: nat) { product / WORD % 15625 == 0 }

  lemma RestIsRightExactly(w: nat)
    ensures RestIsRight(w) <==> Word(w) % ALT_US == w % ALT_US
  {
    var k, low := w / WORD, w % WORD;
    var b := k % 15625;
    var f := b * 967296 % ALT_US;
    HighRest(k, b);
    AddRest(k * WORD % ALT_US, low);
    Rests(k * WORD, low);
    if f == 0 { OnlyZero(b, b * 967296 / ALT_US); }
  }

  /** The rest of the lost words: 15625 of them are a multiple of a million. */
  lemma HighRest(k: nat, b: nat)
    requires b == k % 15625
    ensures k * WORD % ALT_US == b * 967296 % ALT_US
  {
    var a := k / 15625;
    assert k * WORD == (a * 67108864 + b * 4294) * ALT_US + b * 967296;
    Multiple(a * 67108864 + b * 4294, b * 967296);
  }

  lemma Multiple(x: nat, y: nat)
    ensures (x * ALT_US + y) % ALT_US == y % ALT_US
  { }

  lemma Rests(high: nat, low: nat)
    ensures (high + low) % ALT_US == (high % ALT_US + low) % ALT_US
  { }

  lemma AddRest(f: nat, low: nat)
    requires f < ALT_US
    ensures (f + low) % ALT_US == low % ALT_US <==> f == 0
  { }

  /** 15114 has an inverse modulo 15625. */
  lemma OnlyZero(b: nat, c: nat)
    requires b < 15625 && b * 967296 == c * ALT_US
    ensures b == 0
  {
    assert b * 15114 == c * 15625;
    assert 15114 * 12659 == 1 + 15625 * 12245;
    assert b == 15625 * (12659 * c - 12245 * b);
  }

  /** The same from the microseconds alone. */
  lemma SetAndReadIs(t: Timeval, n: U32, m: U32, rate: nat, u: nat)
    requires TickTakes(rate, u)
    ensures ReadAt(ResetAt(t, n, rate), m, rate)
         == Read(Elapsed(Reset(t, Times(n, u) / ALT_US, Times(n, u)), Times(m, u) / ALT_US, Times(m, u)))
  {
    TickLength(rate, u);
    TicksAre(n, rate, u);
    TicksAre(m, rate, u);
  }

  /** What is added up when the seconds between stay in range. */
  lemma ElapsedWords(t: Timeval, past: nat, now: nat)
    requires 0 <= t.usec < ALT_US && -WORD / 2 <= t.sec + (now / ALT_US - past / ALT_US) < WORD / 2
    ensures var e := Elapsed(Reset(t, past / ALT_US, past), now / ALT_US, now);
            && Microseconds(e) == Microseconds(t) + (now - past) + past % ALT_US - Word(past) % ALT_US
            && e.usec == t.usec + now % ALT_US - Word(past) % ALT_US
  {
    Int32Twice(t.sec, past / ALT_US, now / ALT_US);
    Int32Twice(t.usec, Word(past) % ALT_US, now % ALT_US);
  }

  lemma Int32Twice(a: int, less: nat, more: nat)
    requires -WORD / 2 <= a - less + more < WORD / 2
    ensures Int32(Int32(a - less) + more) == a - less + more
  { }

  /** Seconds between two times no more than `d` apart. */
  lemma Passes(past: nat, now: nat, d: nat)
    requires now <= past + d
    ensures now / ALT_US <= past / ALT_US + d / ALT_US + 1
    ensures now >= past ==> now / ALT_US >= past / ALT_US
  { }

  lemma ReadIs(e: Timeval)
    ensures 0 <= Read(e).usec < ALT_US
    ensures Microseconds(Read(e)) == if e.usec < 0 && Microseconds(e) < 0 then 0 else Microseconds(e)
  { }

  /** The true time still fits the structure. */
  predicate Fits31(t: Timeval, elapsed: nat) { t.sec + elapsed / ALT_US + 3 <= WORD / 2 }

  /**
   When a time reads back exactly that was set `past` microseconds after the reset, `elapsed`
   microseconds later: no counted time is lost in between, and the rest of the 32-bit product
   is right. Only the time zero read at once may come out right without that.
   */
  predicate IsRight(t: Timeval, counted: bool, past: nat, elapsed: nat) {
    && counted
    && (RestIsRight(past) || (Microseconds(t) + elapsed == 0 && past % ALT_US <= Word(past) % ALT_US))
  }

  /** A counter that has not wrapped around in between. */
  lemma ReadsBackUnwrapped(t: Timeval, past: nat, now: nat)
    requires 0 <= t.sec && 0 <= t.usec < ALT_US && past <= now && Fits31(t, now - past)
    ensures var got := Read(Elapsed(Reset(t, past / ALT_US, past), now / ALT_US, now));
            && 0 <= got.usec < ALT_US
            && (Microseconds(got) == Microseconds(t) + (now - past) <==> IsRight(t, true, past, now - past))
  {
    Passes(past, now, now - past);
    ElapsedWords(t, past, now);
    RestIsRightExactly(past);
    ReadIs(Elapsed(Reset(t, past / ALT_US, past), now / ALT_US, now));
  }

  /** With ticks of a second, the seconds wrap around along with the counter. */
  lemma ReadsBackSeconds(t: Timeval, n: U32, d: nat, m: U32, past: nat, now: nat)
    requires 0 <= t.sec && 0 <= t.usec < ALT_US && t.sec + d + 3 <= WORD / 2 && m == (n + d) % WORD
    requires past == n * ALT_US && now == m * ALT_US
    ensures var got := Read(Elapsed(Reset(t, past / ALT_US, past), now / ALT_US, now));
            && 0 <= got.usec < ALT_US
            && (Microseconds(got) == Microseconds(t) + d * ALT_US <==> IsRight(t, true, past, d * ALT_US))
  {
    Quotient(past, n, 0);
    Quotient(now, m, 0);
    Int32Wraps(t.sec, n, d);
    RestIsRightExactly(past);
    SecondsRead(t, n, d, m, past, now);
  }

  lemma SecondsRead(t: Timeval, n: U32, d: nat, m: U32, past: nat, now: nat)
    requires 0 <= t.sec && 0 <= t.usec < ALT_US
    requires past % ALT_US == now % ALT_US == 0 && Int32(Int32(t.sec - n) + m) == t.sec + d
    ensures var got := Read(Elapsed(Reset(t, n, past), m, now));
            && 0 <= got.usec < ALT_US
            && (Microseconds(got) == Microseconds(t) + d * ALT_US <==>
                Word(past) % ALT_US == 0 || Microseconds(t) + d * ALT_US == 0)
  {
    hide Word;
    Int32Twice(t.usec, Word(past) % ALT_US, 0);
    ReadIs(Elapsed(Reset(t, n, past), m, now));
  }

  lemma Int32Wraps(a: int, n: nat, d: nat)
    requires 0 <= a && a + d < WORD / 2
    ensures Int32(Int32(a - n) + (n + d) % WORD) == a + d
  { }

  /** A wrapped counter is more than a second behind. */
  lemma LostTime(n: nat, d: nat, m: nat, u: nat)
    requires m + WORD <= n + d && u > 0
    ensures Times(m, u) + WORD <= Times(n, u) + Times(d, u)
  {
    hide Times;
    var lost := n + d - m;
    TimesAdd(n, d, u);
    TimesAdd(m, lost, u);
    TimesAtLeast(lost, u);
  }

  lemma TooEarly(t: Timeval, past: nat, now: nat, elapsed: nat)
    requires 0 <= t.sec && 0 <= t.usec < ALT_US && Fits31(t, elapsed) && elapsed > 0
    requires now + WORD <= past + elapsed && past / ALT_US < WORD / 2
    ensures var got := Read(Elapsed(Reset(t, past / ALT_US, past), now / ALT_US, now));
            0 <= got.usec < ALT_US && Microseconds(got) < Microseconds(t) + elapsed
  {
    Passes(past, now, elapsed);
    ElapsedWords(t, past, now);
    ReadIs(Elapsed(Reset(t, past / ALT_US, past), now / ALT_US, now));
  }

  lemma HalfAtMost(n: nat, rate: nat)
    requires rate >= 2
    ensures n / rate <= n / 2
  {
    Division(n, rate);
    TimesGrows(2, rate, n / rate);
    TimesIs(n / rate, rate);
    TimesIs(rate, n / rate);
    TimesIs(2, n / rate);
  }

  lemma TicksUnwrapped(t: Timeval, n: U32, d: nat, m: U32, u: nat)
    requires m == n + d
    requires 0 <= t.sec && 0 <= t.usec < ALT_US && Fits31(t, Times(d, u))
    ensures var past, now, elapsed := Times(n, u), Times(m, u), Times(d, u);
            var got := Read(Elapsed(Reset(t, past / ALT_US, past), now / ALT_US, now));
            && 0 <= got.usec < ALT_US
            && (Microseconds(got) == Microseconds(t) + elapsed <==> IsRight(t, true, past, elapsed))
  {
    hide Read, Elapsed, Reset, IsRight, Int32, Times;
    TimesAdd(n, d, u);
    ReadsBackUnwrapped(t, Times(n, u), Times(m, u));
  }

  lemma TicksOfASecond(t: Timeval, n: U32, d: nat, m: U32, u: nat)
    requires u == ALT_US && m == (n + d) % WORD
    requires 0 <= t.sec && 0 <= t.usec < ALT_US && Fits31(t, Times(d, u))
    ensures var past, now, elapsed := Times(n, u), Times(m, u), Times(d, u);
            var got := Read(Elapsed(Reset(t, past / ALT_US, past), now / ALT_US, now));
            && 0 <= got.usec < ALT_US
            && (Microseconds(got) == Microseconds(t) + elapsed <==> IsRight(t, true, past, elapsed))
  {
    WholeTicks(n);
    WholeTicks(m);
    WholeTicks(d);
    ReadsBackSeconds(t, n, d, m, Times(n, u), Times(m, u));
  }

  lemma TicksWrapped(t: Timeval, n: U32, d: nat, m: U32, rate: nat, u: nat)
    requires TickTakes(rate, u) && rate >= 2 && m + WORD <= n + d
    requires 0 <= t.sec && 0 <= t.usec < ALT_US && Fits31(t, Times(d, u))
    ensures var past, now, elapsed := Times(n, u), Times(m, u), Times(d, u);
            var got := Read(Elapsed(Reset(t, past / ALT_US, past), now / ALT_US, now));
            && 0 <= got.usec < ALT_US
            && (Microseconds(got) == Microseconds(t) + elapsed <==> IsRight(t, false, past, elapsed))
  {
    LostTime(n, d, m, u);
    SecondsBefore(n, rate, u);
    TimesAtLeast(d, u);
    TooEarly(t, Times(n, u), Times(m, u), Times(d, u));
  }

  lemma AnyTicks(t: Timeval, n: U32, d: nat, m: U32, rate: nat, u: nat)
    requires TickTakes(rate, u) && m == (n + d) % WORD
    requires 0 <= t.sec && 0 <= t.usec < ALT_US && Fits31(t, Times(d, u))
    ensures var past, now, elapsed := Times(n, u), Times(m, u), Times(d, u);
            var got := Read(Elapsed(Reset(t, past / ALT_US, past), now / ALT_US, now));
            && 0 <= got.usec < ALT_US
            && (Microseconds(got) == Microseconds(t) + elapsed <==>
                IsRight(t, n + d < WORD || rate == 1, past, elapsed))
  {
    hide Read, Elapsed, Reset, IsRight, Int32, Times;
    Wraps(n + d, m);
    if n + d < WORD {
      TicksUnwrapped(t, n, d, m, u);
    } else if rate == 1 {
      TimesIs(1, u);
      TicksOfASecond(t, n, d, m, u);
    } else {
      TicksWrapped(t, n, d, m, rate, u);
    }
  }

  lemma WholeTicks(n: nat)
    ensures Times(n, ALT_US) == n * ALT_US && Times(n, ALT_US) / ALT_US == n
  {
    TimesIs(n, ALT_US);
  }

  lemma Wraps(n: nat, m: nat)
    requires m == n % WORD
    ensures if n < WORD then m == n else m + WORD <= n
  { }

  lemma SecondsBefore(n: U32, rate: nat, u: nat)
    requires TickTakes(rate, u) && rate >= 2
    ensures Times(n, u) / ALT_US < WORD / 2
  {
    TicksAre(n, rate, u);
    HalfAtMost(n, rate);
  }

  /** The exact condition: the tick counter has not wrapped around, or its ticks are seconds. */
  predicate ReadsRight(t: Timeval, n: U32, d: nat, rate: nat, u: nat) {
    IsRight(t, n + d < WORD || rate == 1, n * u, d * u)
  }

  /** Read at `d` ticks after `n`, the clock shows the time `t` set at `n` plus those ticks. */
  predicate ReadsBack(reset: Timeval, t: Timeval, n: U32, d: nat, rate: nat, u: nat)
    requires rate > 0
  {
    Microseconds(ReadAt(reset, (n + d) % WORD, rate)) == Microseconds(t) + d * u
  }

  /** For every time from 1970 on, every tick it is set at and every number of ticks until it is read. */
  lemma SetThenGet(t: Timeval, n: U32, d: nat, rate: nat, u: nat)
    requires TickTakes(rate, u)
    requires 0 <= t.sec && 0 <= t.usec < ALT_US && Fits31(t, d * u)
    ensures ReadsBack(ResetAt(t, n, rate), t, n, d, rate, u) <==> ReadsRight(t, n, d, rate, u)
    ensures 0 <= ReadAt(ResetAt(t, n, rate), (n + d) % WORD, rate).usec < ALT_US
  {
    TimesIs(d, u);
    TimesIs(n, u);
    var m: U32 := (n + d) % WORD;
    SetAndReadIs(t, n, m, rate, u);
    AnyTicks(t, n, d, m, rate, u);
  }

  /** A product of 32 bits always has the right rest. */
  lemma SmallProducts(product: nat)
    requires product < WORD
    ensures RestIsRight(product)
  { }

  // ---------------------------------------------------------------- the code

  /** struct timezone. */
  datatype Timezone = Timezone(minuteswest: int, dsttime: int)

  datatype TimeOfDay = TimeOfDay(time: Timeval, zone: Timezone)

  class WallClock {
    var alt_resettime: Timeval
    var alt_timezone: Timezone
    var nticks: U32
    var tick_rate: U32

    /** ALT_SETTIMEOFDAY; false is -1, with ENOSYS. */
    method SetTimeOfDay(t: Timeval, tz: Timezone) returns (ok: bool)
      modifies `alt_resettime, `alt_timezone
      ensures ok == (tick_rate > 0)
      ensures !ok ==> alt_resettime == old(alt_resettime) && alt_timezone == old(alt_timezone)
      ensures ok ==> alt_resettime == ResetAt(t, nticks, tick_rate) && alt_timezone == tz
      ensures ok && 0 <= t.sec && 0 <= t.usec < ALT_US ==>
                forall d: nat, u: nat | TickTakes(tick_rate, u) && Fits31(t, d * u) ::
                  ReadsBack(alt_resettime, t, nticks, d, tick_rate, u) <==> ReadsRight(t, nticks, d, tick_rate, u)
    {
      ok := tick_rate != 0;
      if ok {
        SetReadsBack(t, nticks, tick_rate);
        alt_resettime := Offset(t, nticks, tick_rate);
        alt_timezone := tz;
      }
    }

    /** ALT_GETTIMEOFDAY; None is an error that leaves the caller's structures alone. */
    method GetTimeOfDay() returns (r: Option<TimeOfDay>)
      ensures r == if tick_rate == 0 then None
                   else Some(TimeOfDay(ReadAt(alt_resettime, nticks, tick_rate), alt_timezone))
    {
      if tick_rate == 0 {
        return None;
      }
      var t := AddElapsed(alt_resettime, nticks / tick_rate, Micros(nticks, tick_rate));
      r := Some(TimeOfDay(t, alt_timezone));
    }
  }

  lemma SetReadsBack(t: Timeval, n: U32, rate: nat)
    requires rate > 0
    ensures 0 <= t.sec && 0 <= t.usec < ALT_US ==>
              forall d: nat, u: nat | TickTakes(rate, u) && Fits31(t, d * u) ::
                ReadsBack(ResetAt(t, n, rate), t, n, d, rate, u) <==> ReadsRight(t, n, d, rate, u)
  {
    if 0 <= t.sec && 0 <= t.usec < ALT_US {
      forall d: nat, u: nat | TickTakes(rate, u) && Fits31(t, d * u)
        ensures ReadsBack(ResetAt(t, n, rate), t, n, d, rate, u) <==> ReadsRight(t, n, d, rate, u)
      {
        SetThenGet(t, n, d, rate, u);
      }
    }
  }

  /** The two assignments to alt_resettime. */
  method Offset(t: Timeval, nticks: U32, tick_rate: U32) returns (r: Timeval)
    requires tick_rate > 0
    ensures r == ResetAt(t, nticks, tick_rate)
  {
    r := Timeval(Int32(t.sec - nticks / tick_rate), Int32(t.usec - Word(Micros(nticks, tick_rate)) % ALT_US));
  }

  /** ALT_GETTIMEOFDAY from the elapsed time on. */
  method AddElapsed(reset: Timeval, secs: nat, us: nat) returns (r: Timeval)
    ensures r == Read(Elapsed(reset, secs, us))
  {
    r := Timeval(Int32(reset.sec + secs), Int32(reset.usec + us % ALT_US));
    r := Normalise(r);
  }

  /** The loops of ALT_GETTIMEOFDAY. */
  method Normalise(t: Timeval) returns (r: Timeval)
    ensures r == Read(t)
  {
    var sec, usec := t.sec, t.usec;
    while usec < 0
      invariant usec < ALT_US || usec == t.usec
      invariant t.usec >= 0 ==> sec == t.sec && usec == t.usec
      invariant t.usec < 0 ==>
                  if Microseconds(t) < 0 && usec >= 0 then sec == 0 && usec == 0
                  else (t.sec >= 0 ==> sec >= 0) && Microseconds(Timeval(sec, usec)) == Microseconds(t)
      decreases if usec < 0 then -usec else 0
    {
      if sec <= 0 {
        sec, usec := 0, 0;
        break;
      }
      sec := sec - 1;
      usec := usec + ALT_US;
    }
    while usec >= ALT_US
      invariant 0 <= usec
      invariant t.usec >= 0 ==> sec * ALT_US + usec == t.sec * ALT_US + t.usec
      invariant t.usec < 0 ==> Timeval(sec, usec) == Normal(t)
      decreases usec
    {
      sec := sec + 1;
      usec := usec - ALT_US;
    }
    r := Timeval(sec, usec);
  }

  // ---------------------------------------------------------------- sleeping

  /** The largest delay OSTimeDly takes. */
  const MAX_DELAY := 0xffff

  function SumOf(delays: seq<nat>): nat {
    if delays == [] then 0 else SumOf(delays[..|delays| - 1]) + delays[|delays| - 1]
  }

  /** The ticks usleep waits for. */
  function SleepTicks(us: U32, rate: nat): U32 {
    Word(Word(Product(us / ALT_US, rate)) + Word(Product(us % ALT_US, rate)) / ALT_US)
  }

  /** The product fits a word. */
  predicate Fits(us: U32, rate: nat) { Product(us % ALT_US, rate) < WORD }

  lemma WholeSeconds(us: U32, rate: nat)
    requires rate <= ALT_US
    ensures Times(us / ALT_US, rate) <= 4294000000
  {
    TimesIs(us / ALT_US, rate);
    TimesIs(4294, rate);
    TimesGrows(us / ALT_US, 4294, rate);
  }

  /** The ticks and the rest make up the time exactly when the product fits. */
  lemma SleepIsExact(us: U32, rate: nat, u: nat)
    requires TickTakes(rate, u)
    ensures Product(SleepTicks(us, rate), u) + us % u == us <==> Fits(us, rate)
  {
    TickLength(rate, u);
    Division(us, u);
    WholeSeconds(us, rate);
    TicksOf(us, rate, u);
    if SleepTicks(us, rate) != us / u { OtherTicks(SleepTicks(us, rate), us / u, u); }
  }

  lemma OtherTicks(a: nat, b: nat, u: nat)
    requires a != b && u > 0
    ensures Times(a, u) != Times(b, u)
  {
    if a < b { TimesGrows(a + 1, b, u); } else { TimesGrows(b + 1, a, u); }
  }

  /** usleep counts the whole ticks in its time exactly when the product fits. */
  lemma TicksOf(us: U32, rate: nat, u: nat)
    requires TickTakes(rate, u)
    ensures SleepTicks(us, rate) == us / u <==> Fits(us, rate)
  {
    hide Times;
    var sec, rest := us / ALT_US, us % ALT_US;
    RestTicks(rest, rate, u);
    SplitTicks(sec, rest, rate, u);
    QuotientIsLess(us, u);
    assert us == sec * ALT_US + rest;
    WordTicks(Times(sec, rate), Times(rest, rate));
  }

  lemma QuotientIsLess(v: nat, d: nat)
    requires d > 0
    ensures v / d <= v
  {
    Division(v, d);
    TimesAtLeast(v / d, d);
  }

  lemma WordTicks(seconds: nat, product: nat)
    requires seconds + product / ALT_US < WORD
    ensures Word(Word(seconds) + Word(product) / ALT_US) == seconds + product / ALT_US <==> product < WORD
  {
    LostTicks(product);
  }

  /** A rest below a second, in ticks. */
  lemma RestTicks(rest: nat, rate: nat, u: nat)
    requires TickTakes(rate, u)
    ensures Times(rest, rate) / ALT_US == rest / u
  {
    Division(rest, u);
    TimesIs(u, rate);
    TimesIs(rate, u);
    SecondsAre(rest / u, rest % u, u, rate);
  }

  lemma SplitTicks(sec: nat, rest: nat, rate: nat, u: nat)
    requires u > 0 && Times(rate, u) == ALT_US
    ensures (sec * ALT_US + rest) / u == Times(sec, rate) + rest / u
  {
    TimesTwice(sec, rate, u);
    TimesIs(sec, ALT_US);
    Division(rest, u);
    TimesAdd(Times(sec, rate), rest / u, u);
    UniqueQuotient(sec * ALT_US + rest, Times(sec, rate) + rest / u, rest % u, u);
  }

  /** A product that does not fit loses thousands of ticks. */
  lemma LostTicks(product: nat)
    ensures product < WORD ==> Word(product) / ALT_US == product / ALT_US
    ensures product >= WORD ==> Word(product) / ALT_US < product / ALT_US
  { }

  /** ALT_USLEEP while multitasking: the delays and the microseconds of the busy loop. */
  method Usleep(us: U32, tick_rate: U32) returns (delays: seq<nat>, busy: nat)
    requires 0 < tick_rate <= ALT_US
    ensures SumOf(delays) == SleepTicks(us, tick_rate) && busy == us % (ALT_US / tick_rate)
    ensures forall i | 0 <= i < |delays| :: delays[i] <= MAX_DELAY
  {
    TickIsPositive(tick_rate);
    var ticks := Word(Word(Product(us / ALT_US, tick_rate)) + Word(Product(us % ALT_US, tick_rate)) / ALT_US);
    delays := [];
    while ticks > MAX_DELAY
      invariant SumOf(delays) + ticks == SleepTicks(us, tick_rate) && ticks >= 0
      invariant forall i | 0 <= i < |delays| :: delays[i] <= MAX_DELAY
      decreases ticks
    {
      SumOfLast(delays, MAX_DELAY);
      delays := delays + [MAX_DELAY];
      ticks := ticks - MAX_DELAY;
    }
    SumOfLast(delays, ticks);
    delays := delays + [ticks];
    busy := us % (ALT_US / tick_rate);
  }

  lemma TickIsPositive(rate: nat)
    requires 0 < rate <= ALT_US
    ensures ALT_US / rate > 0
  {
    Division(ALT_US, rate);
    assert Times(1, rate) == Times(0, rate) + rate;
  }

  lemma SumOfLast(delays: seq<nat>, d: nat)
    ensures SumOf(delays + [d]) == SumOf(delays) + d
  {
    assert (delays + [d])[..|delays|] == delays;
  }
}
