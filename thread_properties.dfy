/** What the run of a ThreadBase worker promises, stated on the
    specification `RunFrom`/`RunSpec` that `ThreadBase.Run` is proved to
    follow: the order of the hook calls, when the thread finishes, how a
    stop is observed, and how faults of OnProcess are handled. */
module ThreadingProperties {
  import opened Threading

  /** OnStart is called once, first: no step of the loops calls it. */
  lemma {:induction false} NoOnStartInLoops(cfg: Config, env: seq<Tick>)
    ensures OnStartCalled !in RunFrom(cfg, env).events
    decreases |env|
  {
    if cfg.point != Done && env != [] {
      NoOnStartInLoops(Step(cfg, env[0]).final, env[1..]);
    }
  }

  lemma OnStartOnlyFirst(latch: bool, interval: int, env: seq<Tick>)
    ensures var es := RunSpec(latch, interval, env).events;
      es[0] == OnStartCalled && OnStartCalled !in es[1..]
  {
    NoOnStartInLoops(Config(Check, latch, interval), env);
    var es := RunSpec(latch, interval, env).events;
    assert es[1..] == RunFrom(Config(Check, latch, interval), env).events;
  }

  /** Only the step that finishes the run calls OnStop, and it does nothing
      else. */
  lemma StepStops(cfg: Config, t: Tick)
    requires cfg.point != Done
    ensures var s := Step(cfg, t);
      (OnStopCalled in s.events <==> s.final.point == Done) &&
      (s.final.point == Done ==> s.events == [OnStopCalled])
  {
    var c := Owner(cfg, t);
    if c.point == Poll || c.point == Blocked {
      var ms := if c.point == Poll then c.interval else Infinite;
      var w := WaitOn(c.latch, ms, t.waitFaults);
      assert OnStopCalled !in FaultLog(w);
    } else if c.point == Backoff {
      var w := WaitOn(c.latch, FailureDelay, t.waitFaults);
      assert OnStopCalled !in FaultLog(w);
    }
  }

  /** OnStop occurs in `es` exactly when `done`, and then only as its last
      event. */
  predicate StopsLast(es: seq<Event>, done: bool)
  {
    (OnStopCalled in es <==> done) &&
    (done ==> |es| > 0 && es[|es| - 1] == OnStopCalled && OnStopCalled !in es[..|es| - 1])
  }

  lemma StopsLastAppend(a: seq<Event>, b: seq<Event>, done: bool)
    requires OnStopCalled !in a && StopsLast(b, done)
    ensures StopsLast(a + b, done)
  {
    if done {
      assert (a + b)[..|a + b| - 1] == a + b[..|b| - 1];
    }
  }

  /** OnStop is called exactly when the run finishes, and then it is the
      last event and occurs once. */
  lemma {:induction false} OnStopMarksFinish(cfg: Config, env: seq<Tick>)
    requires cfg.point != Done
    ensures var r := RunFrom(cfg, env);
      (OnStopCalled in r.events <==> r.final.point == Done) &&
      (r.final.point == Done ==>
         |r.events| > 0 && r.events[|r.events| - 1] == OnStopCalled &&
         OnStopCalled !in r.events[..|r.events| - 1])
    decreases |env|
  {
    if env != [] {
      var s := Step(cfg, env[0]);
      var r := RunFrom(s.final, env[1..]);
      StepStops(cfg, env[0]);
      assert RunFrom(cfg, env) == Execution(s.events + r.events, r.final);
      if s.final.point == Done {
        assert r == Execution([], s.final);
        assert s.events + r.events == [OnStopCalled];
      } else {
        OnStopMarksFinish(s.final, env[1..]);
        assert StopsLast(r.events, r.final.point == Done);
        StopsLastAppend(s.events, r.events, r.final.point == Done);
      }
    }
  }

  lemma OnStopLastWhenFinished(latch: bool, interval: int, env: seq<Tick>)
    ensures var r := RunSpec(latch, interval, env);
      (OnStopCalled in r.events <==> r.final.point == Done) &&
      (r.final.point == Done ==>
         r.events[|r.events| - 1] == OnStopCalled && OnStopCalled !in r.events[..|r.events| - 1])
  {
    var cfg := Config(Check, latch, interval);
    OnStopMarksFinish(cfg, env);
    var r := RunFrom(cfg, env);
    var es := [OnStartCalled] + r.events;
    if r.final.point == Done {
      assert es[..|es| - 1] == [OnStartCalled] + r.events[..|r.events| - 1];
    }
  }

  /** Some tick up to the end of `env` requested a stop. */
  predicate StopRequested(env: seq<Tick>)
  {
    exists i :: 0 <= i < |env| && env[i].stop
  }

  /** The latch is never reset while the thread runs, a run only finishes
      with the latch set, and the latch is only set by a stop requested
      before the run or during it. */
  lemma {:induction false} FinishNeedsStop(cfg: Config, env: seq<Tick>)
    ensures var r := RunFrom(cfg, env);
      (cfg.latch ==> r.final.latch) &&
      (r.final.latch ==> cfg.latch || StopRequested(env)) &&
      (cfg.point != Done && r.final.point == Done ==> r.final.latch)
    decreases |env|
  {
    if cfg.point != Done && env != [] {
      var s := Step(cfg, env[0]);
      FinishNeedsStop(s.final, env[1..]);
      if s.final.latch && !cfg.latch {
        assert env[0].stop;
      }
      if StopRequested(env[1..]) {
        var i :| 0 <= i < |env[1..]| && env[1..][i].stop;
        assert env[i + 1].stop;
      }
    }
  }

  /** Neither a fault of OnProcess nor one of the wait ends the thread:
      without a call of Stop it never finishes. */
  lemma RunNeedsStop(interval: int, env: seq<Tick>)
    requires forall i :: 0 <= i < |env| ==> !env[i].stop
    ensures RunSpec(false, interval, env).final.point != Done
  {
    FinishNeedsStop(Config(Check, false, interval), env);
  }

  /** The waits of the ticks work and every interval set is a valid
      timeout (at least Timeout.Infinite). */
  predicate WellBehaved(env: seq<Tick>)
  {
    forall i :: 0 <= i < |env| ==>
      !env[i].waitFaults && (env[i].newInterval.Some? ==> env[i].newInterval.value >= Infinite)
  }

  /** A stop is observed within two ticks from anywhere in the loops, and
      OnProcess is not called again, when the waits work and the interval
      is a valid timeout. */
  lemma StopObservedPromptly(cfg: Config, env: seq<Tick>)
    requires cfg.point != Done && cfg.latch && cfg.interval >= Infinite
    requires WellBehaved(env) && |env| >= 2
    ensures var r := RunFrom(cfg, env);
      r.final.point == Done && forall k :: 0 <= k < |r.events| ==> !r.events[k].OnProcessCalled?
  {
    var s := Step(cfg, env[0]);
    assert s.final.latch && s.final.interval >= Infinite;
    if s.final.point != Done {
      assert s.final.point == Check;
      assert env[1..][0] == env[1];
      var s2 := Step(s.final, env[1]);
      assert s2.events == [OnStopCalled] && s2.final.point == Done;
      assert RunFrom(s.final, env[1..]) == Execution([OnStopCalled], s2.final);
    }
  }

  /** A wait of the inner loop that throws is taken for a timeout: it is
      logged and OnProcess is called, even when the latch is already set. */
  lemma WaitFaultCallsOnProcess(cfg: Config, t: Tick)
    requires cfg.point == Poll || cfg.point == Blocked
    requires t.waitFaults
    ensures var s := Step(cfg, t);
      s.events[0] == Logged(WaitFault) && OnProcessCalled(t.processThrows) in s.events &&
      s.final.point != Done
  {
    var c := Owner(cfg, t);
    var ms := if c.point == Poll then c.interval else Infinite;
    assert WaitOn(c.latch, ms, true) == Returned(WaitTimeout, true);
  }

  /** Start always clears the latch, so it is set when Run begins only
      through a Stop after Start and before the thread's first look at it;
      such a stop ends the run at that first look, before any OnProcess. */
  lemma StoppedAtFirstCheck(interval: int, env: seq<Tick>)
    requires |env| >= 1
    ensures RunSpec(true, interval, env).events == [OnStartCalled, OnStopCalled]
    ensures RunSpec(true, interval, env).final.point == Done
  {
    var s := Step(Config(Check, true, interval), env[0]);
    assert RunFrom(s.final, env[1..]) == Execution([], s.final);
  }

  /** One inner-loop iteration with a timeout below -1: WaitAny throws,
      the fault is logged, and OnProcess is called as if the wait had
      timed out. */
  function FaultyRound(ms: int): seq<Event>
  {
    [Logged(WaitFault), Polled(ms, WaitTimeout), OnProcessCalled(false)]
  }

  function FaultyRounds(ms: int, n: nat): (es: seq<Event>)
    ensures |es| == 3 * n
  {
    if n == 0 then [] else FaultyRound(ms) + FaultyRounds(ms, n - 1)
  }

  /** With a ProcessInterval below -1 that is not changed again, Stop is
      never observed: every wait throws and is taken for a timeout, so
      OnProcess is called on every tick even after Stop, and the inner loop
      is left only if OnProcess throws. */
  lemma {:induction false} BadIntervalIgnoresStop(cfg: Config, env: seq<Tick>)
    requires cfg.point == Poll && cfg.interval < Infinite
    requires forall i :: 0 <= i < |env| ==> env[i].newInterval.None? && !env[i].processThrows
    ensures RunFrom(cfg, env) == Execution(FaultyRounds(cfg.interval, |env|), RunFrom(cfg, env).final)
    ensures RunFrom(cfg, env).final.point == Poll
    decreases |env|
  {
    if env != [] {
      var s := Step(cfg, env[0]);
      assert s.events == FaultyRound(cfg.interval);
      assert s.final.point == Poll && s.final.interval == cfg.interval;
      BadIntervalIgnoresStop(s.final, env[1..]);
    }
  }

  /** The wait in the inner loop timed out. */
  predicate IsTimedOutPoll(e: Event)
  {
    e.Polled? && e.result == WaitTimeout
  }

  /** Every OnProcess call directly follows a wait that timed out, and
      every wait that timed out is directly followed by an OnProcess call. */
  predicate ProcessFollowsTimeout(es: seq<Event>)
  {
    (forall k :: 0 <= k < |es| && es[k].OnProcessCalled? ==> 0 < k && IsTimedOutPoll(es[k - 1])) &&
    (forall k :: 0 <= k < |es| && IsTimedOutPoll(es[k]) ==> k + 1 < |es| && es[k + 1].OnProcessCalled?)
  }

  lemma ProcessFollowsTimeoutAppend(a: seq<Event>, b: seq<Event>)
    requires ProcessFollowsTimeout(a) && ProcessFollowsTimeout(b)
    ensures ProcessFollowsTimeout(a + b)
  {
    var es := a + b;
    forall k | 0 <= k < |es| && es[k].OnProcessCalled?
      ensures 0 < k && IsTimedOutPoll(es[k - 1])
    {
      if k >= |a| {
        assert b[k - |a|].OnProcessCalled?;
      }
    }
    forall k | 0 <= k < |es| && IsTimedOutPoll(es[k])
      ensures k + 1 < |es| && es[k + 1].OnProcessCalled?
    {
      if k < |a| {
        assert IsTimedOutPoll(a[k]);
      } else {
        assert IsTimedOutPoll(b[k - |a|]);
      }
    }
  }

  /** The events of one step pair every OnProcess with the timed-out wait
      just before it. */
  lemma StepPairs(cfg: Config, t: Tick)
    requires cfg.point != Done
    ensures ProcessFollowsTimeout(Step(cfg, t).events)
  {
    var c := Owner(cfg, t);
    if c.point == Backoff {
      var w := WaitOn(c.latch, FailureDelay, t.waitFaults);
      var es := FaultLog(w) + [BackedOff(w.result), Logged(ProcessFault)];
      assert Step(cfg, t).events == es;
      assert forall k :: 0 <= k < |es| ==> !es[k].OnProcessCalled? && !IsTimedOutPoll(es[k]);
    } else if c.point == Poll || c.point == Blocked {
      var ms := if c.point == Poll then c.interval else Infinite;
      assert Step(cfg, t) == PollStep(c, ms, t);
      PollStepPairs(c, ms, t);
    }
  }

  lemma PollStepPairs(c: Config, ms: int, t: Tick)
    ensures ProcessFollowsTimeout(PollStep(c, ms, t).events)
  {
    var w := WaitOn(c.latch, ms, t.waitFaults);
    if !w.StillBlocked? {
      var waited := FaultLog(w) + [Polled(ms, w.result)];
      assert forall k :: 0 <= k < |FaultLog(w)| ==> FaultLog(w)[k] == Logged(WaitFault);
      if w.result == WaitTimeout {
        var es := waited + [OnProcessCalled(t.processThrows)];
        assert es[|es| - 2] == Polled(ms, w.result);
      }
    }
  }

  lemma {:induction false} LoopsPairProcessWithTimeout(cfg: Config, env: seq<Tick>)
    ensures ProcessFollowsTimeout(RunFrom(cfg, env).events)
    decreases |env|
  {
    if cfg.point != Done && env != [] {
      var s := Step(cfg, env[0]);
      StepPairs(cfg, env[0]);
      LoopsPairProcessWithTimeout(s.final, env[1..]);
      ProcessFollowsTimeoutAppend(s.events, RunFrom(s.final, env[1..]).events);
    }
  }

  /** In the whole run, OnProcess is called exactly after each wait of the
      inner loop that timed out, and at no other time. */
  lemma OnProcessExactlyOnTimeout(latch: bool, interval: int, env: seq<Tick>)
    ensures ProcessFollowsTimeout(RunSpec(latch, interval, env).events)
  {
    LoopsPairProcessWithTimeout(Config(Check, latch, interval), env);
    ProcessFollowsTimeoutAppend([OnStartCalled], RunFrom(Config(Check, latch, interval), env).events);
  }

  /** The number of events satisfying `p`. */
  function CountIf(es: seq<Event>, p: Event -> bool): (n: nat)
    ensures n <= |es|
  {
    if es == [] then 0 else CountIf(es[..|es| - 1], p) + (if p(es[|es| - 1]) then 1 else 0)
  }

  lemma {:induction false} CountIfAppend(a: seq<Event>, b: seq<Event>, p: Event -> bool)
    ensures CountIf(a + b, p) == CountIf(a, p) + CountIf(b, p)
    decreases |b|
  {
    if b != [] {
      assert (a + b)[..|a + b| - 1] == a + b[..|b| - 1];
      assert (a + b)[|a + b| - 1] == b[|b| - 1];
      CountIfAppend(a, b[..|b| - 1], p);
    } else {
      assert a + b == a;
    }
  }

  predicate IsThrow(e: Event) { e == OnProcessCalled(true) }
  predicate IsBackoff(e: Event) { e.BackedOff? }
  predicate IsProcessLog(e: Event) { e == Logged(ProcessFault) }

  function Pending(c: Config): nat
  {
    if c.point == Backoff then 1 else 0
  }

  /** The counts of the events a wait of the inner loop and the OnProcess
      call after it leave. */
  lemma PollCounts(w: WaitOutcome, ms: int, threw: bool)
    requires w.Returned?
    ensures var waited := FaultLog(w) + [Polled(ms, w.result)];
      CountIf(waited, IsThrow) == 0 && CountIf(waited, IsBackoff) == 0 && CountIf(waited, IsProcessLog) == 0 &&
      CountIf(waited + [OnProcessCalled(threw)], IsThrow) == (if threw then 1 else 0) &&
      CountIf(waited + [OnProcessCalled(threw)], IsBackoff) == 0 &&
      CountIf(waited + [OnProcessCalled(threw)], IsProcessLog) == 0
  {
    var waited := FaultLog(w) + [Polled(ms, w.result)];
    CountIfAppend(FaultLog(w), [Polled(ms, w.result)], IsThrow);
    CountIfAppend(FaultLog(w), [Polled(ms, w.result)], IsBackoff);
    CountIfAppend(FaultLog(w), [Polled(ms, w.result)], IsProcessLog);
    CountIfAppend(waited, [OnProcessCalled(threw)], IsThrow);
    CountIfAppend(waited, [OnProcessCalled(threw)], IsBackoff);
    CountIfAppend(waited, [OnProcessCalled(threw)], IsProcessLog);
  }

  /** The counts of the events of the catch block. */
  lemma BackoffCounts(w: WaitOutcome)
    requires w.Returned?
    ensures var es := FaultLog(w) + [BackedOff(w.result), Logged(ProcessFault)];
      CountIf(es, IsThrow) == 0 && CountIf(es, IsBackoff) == 1 && CountIf(es, IsProcessLog) == 1
  {
    CountIfAppend(FaultLog(w), [BackedOff(w.result), Logged(ProcessFault)], IsThrow);
    CountIfAppend(FaultLog(w), [BackedOff(w.result), Logged(ProcessFault)], IsBackoff);
    CountIfAppend(FaultLog(w), [BackedOff(w.result), Logged(ProcessFault)], IsProcessLog);
  }

  /** The books kept by one step: throws of OnProcess plus an open backoff
      before it equal backoff waits plus an open backoff after it, and every
      backoff wait comes with its log entry. */
  predicate Balanced(before: Config, s: Execution)
  {
    CountIf(s.events, IsThrow) + Pending(before) == CountIf(s.events, IsBackoff) + Pending(s.final) &&
    CountIf(s.events, IsBackoff) == CountIf(s.events, IsProcessLog)
  }

  /** A wait of the inner loop that timed out, and the OnProcess call after
      it, keep the books. */
  lemma PollTimeoutCounts(c: Config, ms: int, t: Tick)
    requires c.point == Poll || c.point == Blocked
    requires var w := WaitOn(c.latch, ms, t.waitFaults); w.Returned? && w.result == WaitTimeout
    ensures Balanced(c, PollStep(c, ms, t))
  {
    var w := WaitOn(c.latch, ms, t.waitFaults);
    var s := PollStep(c, ms, t);
    PollCounts(w, ms, t.processThrows);
    assert s.events == FaultLog(w) + [Polled(ms, w.result)] + [OnProcessCalled(t.processThrows)];
    assert Pending(s.final) == if t.processThrows then 1 else 0;
  }

  /** A wait of the inner loop that saw the latch keeps the books. */
  lemma PollSignalCounts(c: Config, ms: int, t: Tick)
    requires c.point == Poll || c.point == Blocked
    requires var w := WaitOn(c.latch, ms, t.waitFaults); w.Returned? && w.result != WaitTimeout
    ensures Balanced(c, PollStep(c, ms, t))
  {
    var w := WaitOn(c.latch, ms, t.waitFaults);
    var s := PollStep(c, ms, t);
    PollCounts(w, ms, t.processThrows);
    assert s.events == FaultLog(w) + [Polled(ms, w.result)] && s.final.point == Check;
  }

  lemma PollStepCounts(c: Config, ms: int, t: Tick)
    requires c.point == Poll || c.point == Blocked
    ensures Balanced(c, PollStep(c, ms, t))
  {
    var w := WaitOn(c.latch, ms, t.waitFaults);
    if w.StillBlocked? {
      assert PollStep(c, ms, t) == Execution([], c.(point := Blocked));
    } else if w.result == WaitTimeout {
      PollTimeoutCounts(c, ms, t);
    } else {
      PollSignalCounts(c, ms, t);
    }
  }

  /** One step keeps the books: a throw of OnProcess opens a backoff, and a
      backoff wait closes it together with its log entry. */
  lemma StepCounts(cfg: Config, t: Tick)
    requires cfg.point != Done
    ensures Balanced(cfg, Step(cfg, t))
  {
    var c := Owner(cfg, t);
    assert Pending(c) == Pending(cfg);
    if c.point == Backoff {
      var w := WaitOn(c.latch, FailureDelay, t.waitFaults);
      BackoffCounts(w);
      assert Step(cfg, t) == Execution(FaultLog(w) + [BackedOff(w.result), Logged(ProcessFault)], c.(point := Check));
    } else if c.point == Poll {
      PollStepCounts(c, c.interval, t);
      assert Step(cfg, t) == PollStep(c, c.interval, t);
    } else if c.point == Blocked {
      PollStepCounts(c, Infinite, t);
      assert Step(cfg, t) == PollStep(c, Infinite, t);
    }
  }

  lemma {:induction false} LoopCounts(cfg: Config, env: seq<Tick>)
    ensures var r := RunFrom(cfg, env);
      CountIf(r.events, IsThrow) + Pending(cfg) == CountIf(r.events, IsBackoff) + Pending(r.final) &&
      CountIf(r.events, IsBackoff) == CountIf(r.events, IsProcessLog)
    decreases |env|
  {
    if cfg.point != Done && env != [] {
      var s := Step(cfg, env[0]);
      var r := RunFrom(s.final, env[1..]);
      StepCounts(cfg, env[0]);
      assert Balanced(cfg, s);
      LoopCounts(s.final, env[1..]);
      CountIfAppend(s.events, r.events, IsThrow);
      CountIfAppend(s.events, r.events, IsBackoff);
      CountIfAppend(s.events, r.events, IsProcessLog);
    }
  }

  /** In a finished run, every exception thrown by OnProcess was followed
      by one FailureDelay wait and one log entry, and there were no others. */
  lemma FaultsBackedOffAndLogged(latch: bool, interval: int, env: seq<Tick>)
    requires RunSpec(latch, interval, env).final.point == Done
    ensures var es := RunSpec(latch, interval, env).events;
      CountIf(es, IsThrow) == CountIf(es, IsBackoff) == CountIf(es, IsProcessLog)
  {
    var r := RunFrom(Config(Check, latch, interval), env);
    LoopCounts(Config(Check, latch, interval), env);
    CountIfAppend([OnStartCalled], r.events, IsThrow);
    CountIfAppend([OnStartCalled], r.events, IsBackoff);
    CountIfAppend([OnStartCalled], r.events, IsProcessLog);
  }
}
