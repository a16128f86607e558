/** The count-down timers of Timeout.cs. The clock is a parameter: `now`
    is the current reading in ticks of 100 ns (DateTime.Now.Ticks for
    Timeout, the Stopwatch timestamp for TimeoutHighPerformance). */
module Timer {
  /** A `ulong`. */
  const ULongLimit: int := 0x1_0000_0000_0000_0000
  type ULong = x: int | 0 <= x < ULongLimit

  /** TimeSpan.TicksPerMillisecond. */
  const TicksPerMillisecond: int := 10000

  /** The largest DateTime, in ticks (DateTime.MaxValue.Ticks). */
  const MaxTicks: int := 3155378975999999999
  type DateTimeTicks = x: int | 0 <= x <= MaxTicks

  /** A Stopwatch timestamp, a `long` that never goes negative. */
  type Timestamp = x: int | 0 <= x < 0x8000_0000_0000_0000

  /** TimeSpan.TotalMilliseconds of a span of `ticks`, cast to an integer
      type: the cast truncates toward zero. */
  function TruncatedMilliseconds(ticks: int): (ms: int)
    ensures ticks >= 0 ==> ms * TicksPerMillisecond <= ticks < (ms + 1) * TicksPerMillisecond
    ensures ticks < 0 ==> ms <= 0 && -ms * TicksPerMillisecond <= -ticks < (-ms + 1) * TicksPerMillisecond
  {
    if ticks >= 0 then ticks / TicksPerMillisecond else -((-ticks) / TicksPerMillisecond)
  }

  /** A cast to `ulong` in an unchecked context: a value out of range
      gives an unspecified result, here the parameter `unspecified`. */
  function CastToULong(x: int, unspecified: ULong): (r: ULong)
    ensures 0 <= x < ULongLimit ==> r == x
  {
    if 0 <= x < ULongLimit then x else unspecified
  }

  /** What HasTimedOut computes from the ticks elapsed since the timer was
      armed: the truncated milliseconds, cast to `ulong`, compared with the
      interval. */
  function Expired(elapsedTicks: int, interval: ULong, unspecified: ULong): bool
  {
    CastToULong(TruncatedMilliseconds(elapsedTicks), unspecified) >= interval
  }

  /** For a clock that has not gone back, a timer has expired exactly when
      `interval` whole milliseconds have passed. */
  lemma ExpiredExactly(elapsedTicks: int, interval: ULong, unspecified: ULong)
    requires 0 <= elapsedTicks < 0x8000_0000_0000_0000
    ensures Expired(elapsedTicks, interval, unspecified) <==> elapsedTicks >= interval * TicksPerMillisecond
  {
    var ms := TruncatedMilliseconds(elapsedTicks);
    assert 0 <= ms < ULongLimit;
  }

  /** A clock that went back by less than a millisecond counts as no time
      elapsed: only a zero interval has expired. */
  lemma ExpiredJustBefore(elapsedTicks: int, interval: ULong, unspecified: ULong)
    requires -TicksPerMillisecond < elapsedTicks < 0
    ensures Expired(elapsedTicks, interval, unspecified) <==> interval == 0
  {
    assert TruncatedMilliseconds(elapsedTicks) == 0;
  }

  /** With a clock that does not go back and an unchanged interval, a timer
      that has expired stays expired until it is armed again (setting a
      larger interval can make it unexpired). */
  lemma ExpiredStays(e1: int, e2: int, interval: ULong, unspecified: ULong)
    requires 0 <= e1 <= e2 < 0x8000_0000_0000_0000
    requires Expired(e1, interval, unspecified)
    ensures Expired(e2, interval, unspecified)
  {
    ExpiredExactly(e1, interval, unspecified);
    ExpiredExactly(e2, interval, unspecified);
  }

  /** Timeout: a count-down timer on the wall clock. */
  class Timeout {
    /** startTime, the DateTime of the last Start or Reset. */
    var startTime: DateTimeTicks
    /** Interval, in milliseconds. */
    var interval: ULong

    /** The field initialiser reads the clock, then the constructor sets
        the interval. */
    constructor (interval: ULong, now: DateTimeTicks)
      ensures this.interval == interval && startTime == now
    {
      startTime := now;
      this.interval := interval;
    }

    /** The Interval setter. */
    method SetInterval(value: ULong)
      modifies this`interval
      ensures interval == value
    {
      interval := value;
    }

    /** Start: the count restarts from the current time. */
    method Start(now: DateTimeTicks)
      modifies this`startTime
      ensures startTime == now
    {
      startTime := now;
    }

    /** Reset does exactly what Start does. */
    method Reset(now: DateTimeTicks)
      modifies this`startTime
      ensures startTime == now
    {
      startTime := now;
    }

    /** HasTimedOut: the whole milliseconds elapsed since the start, cast
        to `ulong`, have reached the interval. So a timer times out exactly
        when `interval` milliseconds have passed; one whose clock went back
        by less than a millisecond counts 0 elapsed, so it has timed out
        only with a zero interval; one whose clock went
        back further depends on the unspecified cast of a negative value. */
    method HasTimedOut(now: DateTimeTicks, unspecified: ULong) returns (r: bool)
      ensures r == Expired(now - startTime, interval, unspecified)
      ensures interval == 0 ==> r
      ensures now >= startTime ==> (r <==> now - startTime >= interval * TicksPerMillisecond)
      ensures -TicksPerMillisecond < now - startTime < 0 ==> (r <==> interval == 0)
      ensures now - startTime <= -TicksPerMillisecond ==> (r <==> unspecified >= interval)
    {
      var ms := TruncatedMilliseconds(now - startTime);
      r := CastToULong(ms, unspecified) >= interval;
      if now >= startTime {
        ExpiredExactly(now - startTime, interval, unspecified);
      } else if now - startTime > -TicksPerMillisecond {
        ExpiredJustBefore(now - startTime, interval, unspecified);
      }
    }
  }

  /** System.Diagnostics.Stopwatch, as far as TimeoutHighPerformance uses
      it; its timestamps never go back. */
  class Stopwatch {
    var running: bool
    /** The ticks accumulated by earlier runs. */
    var elapsed: nat
    /** The timestamp of the last start. */
    var startStamp: Timestamp

    /** Stopwatch.StartNew: a running stopwatch with nothing accumulated. */
    constructor StartNew(now: Timestamp)
      ensures running && elapsed == 0 && startStamp == now
    {
      running := true;
      elapsed := 0;
      startStamp := now;
    }

    /** Stop the stopwatch and clear what it accumulated. */
    method Reset()
      modifies this
      ensures !running && elapsed == 0 && startStamp == 0
    {
      running := false;
      elapsed := 0;
      startStamp := 0;
    }

    /** Start a stopped stopwatch; a running one goes on. */
    method Start(now: Timestamp)
      modifies this
      ensures if old(running) then unchanged(this) else running && startStamp == now && elapsed == old(elapsed)
    {
      if !running {
        running := true;
        startStamp := now;
      }
    }

    /** ElapsedMilliseconds: the accumulated ticks plus those of the
        current run, in whole milliseconds. */
    method ElapsedMilliseconds(now: Timestamp) returns (ms: int)
      requires running ==> startStamp <= now
      ensures var total := elapsed + if running then now - startStamp else 0;
        ms >= 0 && ms * TicksPerMillisecond <= total < (ms + 1) * TicksPerMillisecond
    {
      var total := elapsed;
      if running {
        total := total + (now - startStamp);
      }
      ms := total / TicksPerMillisecond;
    }
  }

  /** TimeoutHighPerformance: the same count-down on a Stopwatch, which is
      started when the timer is created and restarted by Start and Reset. */
  class TimeoutHighPerformance {
    const stopwatch: Stopwatch
    /** Interval, in milliseconds. */
    var interval: ULong

    /** The stopwatch always runs from the last start with nothing
        accumulated before it. */
    ghost predicate Valid()
      reads this, stopwatch
    {
      stopwatch.running && stopwatch.elapsed == 0
    }

    constructor (interval: ULong, now: Timestamp)
      ensures Valid() && fresh(stopwatch)
      ensures this.interval == interval && stopwatch.startStamp == now
    {
      stopwatch := new Stopwatch.StartNew(now);
      this.interval := interval;
    }

    /** The Interval setter. */
    method SetInterval(value: ULong)
      modifies this`interval
      ensures interval == value
    {
      interval := value;
    }

    /** Start: reset the stopwatch and start it again, so the count restarts
        from `now` whatever the stopwatch did before. */
    method Start(now: Timestamp)
      modifies stopwatch
      ensures Valid() && stopwatch.startStamp == now
    {
      stopwatch.Reset();
      stopwatch.Start(now);
    }

    /** Reset does exactly what Start does. */
    method Reset(now: Timestamp)
      modifies stopwatch
      ensures Valid() && stopwatch.startStamp == now
    {
      stopwatch.Reset();
      stopwatch.Start(now);
    }

    /** HasTimedOut: the whole milliseconds since the last start have
        reached the interval: the same test as Timeout's on the same elapsed
        ticks, where the stopwatch's elapsed time is never negative. */
    method HasTimedOut(now: Timestamp) returns (r: bool)
      requires Valid() && stopwatch.startStamp <= now
      ensures r == Expired(now - stopwatch.startStamp, interval, 0)
      ensures r <==> now - stopwatch.startStamp >= interval * TicksPerMillisecond
    {
      var ms := stopwatch.ElapsedMilliseconds(now);
      r := ms >= interval;
      ExpiredExactly(now - stopwatch.startStamp, interval, 0);
    }
  }
}
