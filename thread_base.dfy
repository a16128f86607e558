/** The polling worker of ThreadBase.cs, without a real thread.

    The worker's own thread runs `Run`: OnStart, then an outer loop that
    re-checks the stop latch, an inner loop that waits ProcessInterval
    milliseconds for the latch and calls OnProcess on every timeout, a
    backoff wait and a log entry when OnProcess throws, and OnStop at the end.

    Everything the thread cannot decide itself comes from an oracle: a
    sequence of ticks, one consumed each time the thread looks at the latch
    (the outer check and every wait). A tick says whether the owner called
    Stop or set ProcessInterval since the previous look, whether the wait
    primitive throws, and whether the OnProcess call that may follow throws.
    When the ticks run out the thread is still running: `Run` then reports
    that it has not finished. The hooks and the log are recorded as events
    in `trace`; so are the results of the waits, so that the order in which
    things happen can be stated. */
module Threading {
  import opened Wrappers

  /** FailureDelay: the backoff after a fault, in milliseconds. */
  const FailureDelay: int := 10000
  /** WaitHandle.WaitTimeout, the result of a wait that timed out. */
  const WaitTimeout: int := 258
  /** Timeout.Infinite: a wait with this timeout never times out. */
  const Infinite: int := -1

  /** What the environment does before one look at the latch. The owner's
      calls are Stop and the interval setter; an owner Start during a run,
      which would reset the latch before throwing, is not among them. */
  datatype Tick = Tick(stop: bool, newInterval: Option<int>, waitFaults: bool, processThrows: bool)

  /** Where a logged exception came from. */
  datatype Origin = WaitFault | ProcessFault

  /** What the worker's thread does that can be observed. */
  datatype Event =
    | OnStartCalled
    | Polled(ms: int, result: int)      // the inner loop's wait returned `result`
    | OnProcessCalled(threw: bool)
    | BackedOff(result: int)            // the FailureDelay wait after a fault returned
    | Logged(origin: Origin)             // WriteLineToLog(ex)
    | OnStopCalled

  /** The .NET state of the worker's thread. */
  datatype ThreadState = Unstarted | Running | Terminated

  /** What Thread.Join does in each thread state. */
  datatype JoinOutcome = JoinReturns | JoinBlocks | JoinThrowsThreadState

  /** The outcome of one WaitForTimeOut on one tick: its return value and
      whether the wait primitive threw, or, for an infinite wait that no
      stop has ended yet, that it is still blocked. */
  datatype WaitOutcome = Returned(result: int, faulted: bool) | StillBlocked

  /** Where the thread is in Run: before the outer latch check, before a
      wait of the inner loop, inside an infinite wait, before the backoff
      wait, or finished. */
  datatype Point = Check | Poll | Blocked | Backoff | Done

  /** The state of Run between two ticks. */
  datatype Config = Config(point: Point, latch: bool, interval: int)

  /** The events of a stretch of Run and the state it ends in. */
  datatype Execution = Execution(events: seq<Event>, final: Config)

  /** WaitHandle.WaitAny on the latch with timeout `ms`, inside the
      try/catch of WaitForTimeOut: a timeout below -1 makes WaitAny throw,
      and a thrown exception is logged and reported as a timeout; a set
      latch ends the wait with 0; an infinite wait otherwise goes on. */
  function WaitOn(latch: bool, ms: int, faults: bool): (w: WaitOutcome)
    ensures w.Returned? ==> w.result == 0 || w.result == WaitTimeout
    ensures w.Returned? && w.result == 0 <==> latch && !faults && Infinite <= ms
    ensures w.StillBlocked? <==> !latch && !faults && ms == Infinite
    ensures w.Returned? && w.faulted <==> faults || ms < Infinite
  {
    if faults || ms < Infinite then Returned(WaitTimeout, true)
    else if latch then Returned(0, false)
    else if ms == Infinite then StillBlocked
    else Returned(WaitTimeout, false)
  }

  /** The log entry WaitForTimeOut writes when the wait throws. */
  function FaultLog(w: WaitOutcome): seq<Event>
  {
    if w.Returned? && w.faulted then [Logged(WaitFault)] else []
  }

  /** The owner's calls of Stop and of the ProcessInterval setter. */
  function Owner(c: Config, t: Tick): Config
  {
    c.(latch := c.latch || t.stop,
       interval := if t.newInterval.Some? then t.newInterval.value else c.interval)
  }

  /** One wait of the inner loop with timeout `ms`, then OnProcess on a
      timeout or the way out of the inner loop on a signal. */
  function PollStep(c: Config, ms: int, t: Tick): Execution
  {
    var w := WaitOn(c.latch, ms, t.waitFaults);
    if w.StillBlocked? then Execution([], c.(point := Blocked))
    else
      var waited := FaultLog(w) + [Polled(ms, w.result)];
      if w.result == WaitTimeout then
        Execution(waited + [OnProcessCalled(t.processThrows)],
                  c.(point := if t.processThrows then Backoff else Poll))
      else Execution(waited, c.(point := Check))
  }

  /** What Run does with one tick. */
  function Step(cfg: Config, t: Tick): Execution
    requires cfg.point != Done
  {
    var c := Owner(cfg, t);
    match c.point
    case Check =>
      if c.latch then Execution([OnStopCalled], c.(point := Done))
      else Execution([], c.(point := Poll))
    case Poll => PollStep(c, c.interval, t)
    case Blocked => PollStep(c, Infinite, t)
    case Backoff =>
      var w := WaitOn(c.latch, FailureDelay, t.waitFaults);
      Execution(FaultLog(w) + [BackedOff(w.result), Logged(ProcessFault)], c.(point := Check))
  }

  /** Run from `cfg` until it finishes or the ticks run out. */
  function RunFrom(cfg: Config, env: seq<Tick>): Execution
    decreases |env|
  {
    if cfg.point == Done || env == [] then Execution([], cfg)
    else
      var s := Step(cfg, env[0]);
      var r := RunFrom(s.final, env[1..]);
      Execution(s.events + r.events, r.final)
  }

  /** The whole of Run: OnStart, then the loops from the outer check. */
  function RunSpec(latch: bool, interval: int, env: seq<Tick>): Execution
  {
    var r := RunFrom(Config(Check, latch, interval), env);
    Execution([OnStartCalled] + r.events, r.final)
  }

  class ThreadBase {
    /** The name given to the thread. */
    var name: string
    /** abortThread: the ManualResetEvent that is set when a stop is requested. */
    var latch: bool
    /** processInterval, in milliseconds. */
    var processInterval: int
    /** mainThread's state. */
    var thread: ThreadState
    /** The hook calls, log entries and wait results so far. */
    var trace: seq<Event>

    /** The thread is created but not started, the latch is clear, and the
        given interval replaces the field's initial 250. */
    constructor (threadName: string, processInterval: int)
      ensures name == threadName && this.processInterval == processInterval
      ensures !latch && thread == Unstarted && trace == []
    {
      name := threadName;
      latch := false;
      this.processInterval := processInterval;
      thread := Unstarted;
      trace := [];
    }

    /** The ProcessInterval setter; nothing else changes. */
    method SetProcessInterval(value: int)
      modifies this`processInterval
      ensures processInterval == value
    {
      processInterval := value;
    }

    /** HasStopBeenRequested: a zero-timeout wait on the latch, which reads
        it and changes nothing. */
    method HasStopBeenRequested() returns (r: bool)
      ensures r == latch
    {
      r := latch;
    }

    /** Start: reset the latch, then start the thread. Thread.Start throws a
        ThreadStateException (`started` is false) unless the thread has never
        been started, and by then the latch has already been reset. */
    method Start() returns (started: bool)
      modifies this`latch, this`thread
      ensures !latch
      ensures started <==> old(thread) == Unstarted
      ensures thread == if started then Running else old(thread)
    {
      latch := false;
      started := thread == Unstarted;
      if started {
        thread := Running;
      }
    }

    /** Stop: set the latch and return at once. */
    method Stop()
      modifies this`latch
      ensures latch
    {
      latch := true;
    }

    /** Join: returns once the thread has terminated, blocks while it runs,
        and throws a ThreadStateException for a thread never started. */
    method Join() returns (r: JoinOutcome)
      ensures r == JoinReturns <==> thread == Terminated
      ensures r == JoinBlocks <==> thread == Running
      ensures r == JoinThrowsThreadState <==> thread == Unstarted
    {
      match thread
      case Unstarted => r := JoinThrowsThreadState;
      case Running => r := JoinBlocks;
      case Terminated => r := JoinReturns;
    }

    /** Appends an event to the trace (a hook call, a log entry or the result
        of a wait). */
    method Record(e: Event)
      modifies this`trace
      ensures trace == old(trace) + [e]
    {
      trace := trace + [e];
    }

    /** The owner's calls that arrive before the thread's next look at the
        latch. */
    method OwnerCalls(t: Tick)
      modifies this`latch, this`processInterval
      ensures latch == (old(latch) || t.stop)
      ensures processInterval == if t.newInterval.Some? then t.newInterval.value else old(processInterval)
    {
      if t.stop {
        Stop();
      }
      if t.newInterval.Some? {
        SetProcessInterval(t.newInterval.value);
      }
    }

    /** WaitForTimeOut: wait on the latch for `ms` milliseconds; an exception
        from the wait is logged and the timeout result returned. The latch is
        never touched. */
    method WaitForTimeOut(ms: int, faults: bool) returns (w: WaitOutcome)
      modifies this`trace
      ensures w == WaitOn(latch, ms, faults)
      ensures trace == old(trace) + FaultLog(w)
    {
      w := WaitOn(latch, ms, faults);
      if w.Returned? && w.faulted {
        Record(Logged(WaitFault));
      }
    }

    /** The outer loop's look at the latch (HasStopBeenRequested) after the
        owner's calls of one tick: `stop` is whether the loop ends. */
    method LookAtLatch(t: Tick) returns (stop: bool)
      modifies this`latch, this`processInterval
      ensures var s := Step(Config(Check, old(latch), old(processInterval)), t);
        latch == s.final.latch && processInterval == s.final.interval &&
        stop == (s.final.point == Done) &&
        s.events == if stop then [OnStopCalled] else []
    {
      OwnerCalls(t);
      stop := HasStopBeenRequested();
    }

    /** One iteration of the inner loop after the owner's calls: wait `ms`
        milliseconds (ProcessInterval, or Infinite for an infinite wait
        still in progress), then call OnProcess on a timeout. `next` is
        where Run goes on: the next wait, the same infinite wait, the catch
        block, or the outer check. */
    method WaitAndProcess(ghost p: Point, ms: int, t: Tick) returns (next: Point)
      modifies this`trace
      ensures var s := PollStep(Config(p, latch, processInterval), ms, t);
        trace == old(trace) + s.events && next == s.final.point
    {
      var w := WaitForTimeOut(ms, t.waitFaults);
      if w.StillBlocked? {
        return Blocked;
      }
      Record(Polled(ms, w.result));
      if w.result == WaitTimeout {
        Record(OnProcessCalled(t.processThrows));
        next := if t.processThrows then Backoff else Poll;
      } else {
        next := Check;
      }
    }

    /** The catch block: wait FailureDelay milliseconds for the latch, then
        log the exception OnProcess threw. */
    method BackOff(t: Tick)
      modifies this`latch, this`processInterval, this`trace
      ensures var s := Step(Config(Backoff, old(latch), old(processInterval)), t);
        trace == old(trace) + s.events &&
        latch == s.final.latch && processInterval == s.final.interval && s.final.point == Check
    {
      OwnerCalls(t);
      var w := WaitForTimeOut(FailureDelay, t.waitFaults);
      Record(BackedOff(w.result));
      Record(Logged(ProcessFault));
    }

    /** The condition of Run's outer loop on the tick at `pos`: `stop` says
        that the loop ends, and then the trace lacks only OnStop. */
    method CheckLatch(env: seq<Tick>, pos: nat, ghost goal: Execution, ghost base: seq<Event>)
      returns (stop: bool)
      requires pos < |env|
      requires Follows(trace, Config(Check, latch, processInterval), env[pos..], goal, base)
      modifies this`latch, this`processInterval
      ensures stop ==> (trace + [OnStopCalled] == base + goal.events &&
        goal.final == Config(Done, latch, processInterval))
      ensures !stop ==> Follows(trace, Config(Poll, latch, processInterval), env[pos + 1..], goal, base)
    {
      FollowsStep(trace, Config(Check, latch, processInterval), env, pos, goal, base);
      stop := LookAtLatch(env[pos]);
      if stop {
        FollowsDone(trace + [OnStopCalled], Config(Done, latch, processInterval), env[pos + 1..], goal, base);
      }
    }

    /** One iteration of the inner loop on the tick at `pos`: the owner's
        calls, then the wait and OnProcess. */
    method PollOnce(env: seq<Tick>, pos: nat, point: Point, ghost goal: Execution, ghost base: seq<Event>)
      returns (next: Point)
      requires pos < |env| && (point == Poll || point == Blocked)
      requires Follows(trace, Config(point, latch, processInterval), env[pos..], goal, base)
      modifies this`latch, this`processInterval, this`trace
      ensures next != Done
      ensures Follows(trace, Config(next, latch, processInterval), env[pos + 1..], goal, base)
    {
      ghost var cfg := Config(point, latch, processInterval);
      FollowsStep(trace, cfg, env, pos, goal, base);
      StepOfWait(cfg, env[pos]);
      OwnerCalls(env[pos]);
      var ms := if point == Blocked then Infinite else processInterval;
      next := WaitAndProcess(point, ms, env[pos]);
    }

    /** The inner loop of Run, from a wait of the poll interval: it ends
        when a wait is signalled (`point` is Check), when OnProcess throws
        (`point` is Backoff), or when the ticks run out in a wait. */
    method InnerLoop(env: seq<Tick>, pos0: nat, ghost goal: Execution, ghost base: seq<Event>)
      returns (pos: nat, point: Point)
      requires pos0 <= |env|
      requires Follows(trace, Config(Poll, latch, processInterval), env[pos0..], goal, base)
      modifies this`latch, this`processInterval, this`trace
      ensures pos0 <= pos <= |env| && point != Done
      ensures point == Poll || point == Blocked ==> pos == |env|
      ensures Follows(trace, Config(point, latch, processInterval), env[pos..], goal, base)
    {
      pos := pos0;
      point := Poll;
      while (point == Poll || point == Blocked) && pos < |env|
        invariant pos0 <= pos <= |env|
        invariant point != Done
        invariant Follows(trace, Config(point, latch, processInterval), env[pos..], goal, base)
        decreases |env| - pos
      {
        point := PollOnce(env, pos, point, goal, base);
        pos := pos + 1;
      }
    }

    /** The try block of Run's outer loop (the inner loop of waits and
        OnProcess calls) and its catch block (the FailureDelay wait and the
        log entry), from the first wait to the next look at the latch.
        `ranOut` says that the ticks ran out first. */
    method TryProcess(env: seq<Tick>, pos0: nat, ghost goal: Execution, ghost base: seq<Event>)
      returns (pos: nat, ranOut: bool)
      requires pos0 <= |env|
      requires Follows(trace, Config(Poll, latch, processInterval), env[pos0..], goal, base)
      modifies this`latch, this`processInterval, this`trace
      ensures pos0 <= pos <= |env|
      ensures ranOut ==> (trace == base + goal.events && goal.final.latch == latch &&
        goal.final.interval == processInterval && goal.final.point != Done)
      ensures !ranOut ==> Follows(trace, Config(Check, latch, processInterval), env[pos..], goal, base)
    {
      var point;
      pos, point := InnerLoop(env, pos0, goal, base);
      if point == Check {
        return pos, false;
      }
      if pos == |env| {
        FollowsToEnd(trace, Config(point, latch, processInterval), env, goal, base);
        return pos, true;
      }
      // catch: OnProcess threw
      FollowsStep(trace, Config(Backoff, latch, processInterval), env, pos, goal, base);
      BackOff(env[pos]);
      pos := pos + 1;
      ranOut := false;
    }

    /** Run, the body of the worker's thread, driven by the ticks `env`.
        `finished` is false when the ticks ran out before the thread ended. */
    method Run(env: seq<Tick>) returns (finished: bool)
      requires thread == Running
      modifies this`latch, this`processInterval, this`trace, this`thread
      ensures var spec := RunSpec(old(latch), old(processInterval), env);
        trace == old(trace) + spec.events &&
        latch == spec.final.latch && processInterval == spec.final.interval &&
        finished == (spec.final.point == Done) &&
        thread == if finished then Terminated else Running
    {
      ghost var goal := RunFrom(Config(Check, latch, processInterval), env);
      Record(OnStartCalled);
      ghost var base := trace;
      assert old(trace) + RunSpec(old(latch), old(processInterval), env).events == base + goal.events;
      var pos := 0;
      assert env[0..] == env;
      while true
        invariant pos <= |env| && thread == Running
        invariant Follows(trace, Config(Check, latch, processInterval), env[pos..], goal, base)
        decreases |env| - pos
      {
        if pos == |env| {
          FollowsToEnd(trace, Config(Check, latch, processInterval), env, goal, base);
          return false;
        }
        var stop := CheckLatch(env, pos, goal, base);
        pos := pos + 1;
        if stop {
          break;
        }
        var ranOut;
        pos, ranOut := TryProcess(env, pos, goal, base);
        if ranOut {
          return false;
        }
      }
      Record(OnStopCalled);
      thread := Terminated;
      finished := true;
    }
  }

  /** From a wait of the inner loop, a step is the owner's calls followed
      by a wait of the (possibly new) interval, or an infinite wait. */
  lemma StepOfWait(cfg: Config, t: Tick)
    requires cfg.point == Poll || cfg.point == Blocked
    ensures var c := Owner(cfg, t);
      Step(cfg, t) == PollStep(c, if cfg.point == Blocked then Infinite else c.interval, t)
  {
  }

  /** The events `trace` seen so far followed by what Run still does from
      `cfg` with the ticks `rest` make up the whole run `goal` after `base`. */
  ghost predicate Follows(trace: seq<Event>, cfg: Config, rest: seq<Tick>, goal: Execution, base: seq<Event>)
  {
    var r := RunFrom(cfg, rest);
    trace + r.events == base + goal.events && r.final == goal.final
  }

  /** With no ticks left, the trace is the whole run. */
  lemma FollowsToEnd(trace: seq<Event>, cfg: Config, env: seq<Tick>, goal: Execution, base: seq<Event>)
    requires Follows(trace, cfg, env[|env|..], goal, base)
    ensures trace == base + goal.events && goal.final == cfg
  {
    assert env[|env|..] == [];
  }

  /** Once Run is done, the trace is the whole run. */
  lemma FollowsDone(trace: seq<Event>, cfg: Config, rest: seq<Tick>, goal: Execution, base: seq<Event>)
    requires cfg.point == Done && Follows(trace, cfg, rest, goal, base)
    ensures trace == base + goal.events && goal.final == cfg
  {
  }

  /** Taking one Step with the next tick keeps the trace on course. */
  lemma FollowsStep(trace: seq<Event>, cfg: Config, env: seq<Tick>, pos: nat, goal: Execution, base: seq<Event>)
    requires pos < |env| && cfg.point != Done
    requires Follows(trace, cfg, env[pos..], goal, base)
    ensures var s := Step(cfg, env[pos]);
      Follows(trace + s.events, s.final, env[pos + 1..], goal, base)
  {
    assert env[pos..][1..] == env[pos + 1..];
    var s := Step(cfg, env[pos]);
    var r := RunFrom(s.final, env[pos + 1..]);
    assert RunFrom(cfg, env[pos..]).events == s.events + r.events;
    assert trace + s.events + r.events == trace + (s.events + r.events);
  }
}
