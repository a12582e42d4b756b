/** A blocking wait on a caller-supplied condition, bounded by a timeout.

    `Watcher.Start` evaluates the condition once and, while it is denied, alternates
    between await mode (block on the notifier carried by the last result) and poll
    mode (sleep a fixed interval, then re-evaluate), checking the deadline in between.

    The clock, the notifier's `await` answers, sleep interruptions and the condition's
    successive answers are inputs. Every interaction is recorded as an `Event`, in order. */
module Watching {
  import opened Wrappers

  /** Identity of a notifier object (an `IAwaiting`); the watcher only passes it on. */
  type Handle = nat

  /** Default timeout: "5s". */
  const DefaultTimeout: nat := 5000
  /** Default polling interval: "100ms". */
  const DefaultPollingInterval: nat := 100

  /** The result of one evaluation of the watched condition. */
  datatype ConditionResult = ConditionResult(denied: bool, awaiting: Option<Handle>)
  {
    /** A result that carries a notifier is denied. */
    predicate Coherent() {
      awaiting.Some? ==> denied
    }
  }

  /** The errors the watcher raises. */
  datatype Error =
    | InvalidArgument(argument: string)   // a required argument was null
    | TimedOut                            // "The watcher is timed out"
    | Interrupted                         // the polling sleep was interrupted

  /** `new ConditionResult(boolean)`: a result without a notifier. */
  function FromDenied(denied: bool): (r: ConditionResult)
    ensures r.denied == denied && r.awaiting == None
    ensures r.Coherent()
  {
    ConditionResult(denied, None)
  }

  /** `new ConditionResult(IAwaiting)`: a denied result carrying the notifier; a null
      notifier is rejected. */
  function FromNotifier(notifier: Option<Handle>): (r: Result<ConditionResult, Error>)
    ensures notifier.None? ==> r == Failure(InvalidArgument("notified"))
    ensures notifier.Some? ==> r.Success? && r.value.denied && r.value.awaiting == notifier
    ensures r.Success? ==> r.value.Coherent()
  {
    if notifier.None? then Failure(InvalidArgument("notified"))
    else Success(ConditionResult(true, notifier))
  }

  /** `check(startTime)` with the clock reading `now`: the timeout error once the time
      elapsed since `start` has reached the timeout, nothing otherwise. */
  function CheckDeadline(start: int, now: int, timeout: nat): (r: Option<Error>)
    ensures r.Some? <==> now - start >= timeout
    ensures r.Some? ==> r.value == TimedOut
  {
    if now - start >= timeout then Some(TimedOut) else None
  }

  /** The watched condition: its answer to the k-th call of `accept()`. */
  type Condition = nat -> ConditionResult

  /** The rest of the environment, each input indexed by how often it was consulted:
      `now(k)` is the k-th reading of the clock, `signal(k)` what the k-th `await`
      returned, `interrupt(k)` whether the k-th sleep was interrupted. */
  datatype Env = Env(now: nat -> int, signal: nat -> bool, interrupt: nat -> bool)

  /** The watcher's configuration while `start` runs (times in milliseconds). */
  datatype WatchConfig = WatchConfig(condition: Condition, timeout: nat, pollingInterval: nat)

  /** One interaction with the environment. `elapsed` is the clock reading taken for the
      event minus the start time. */
  datatype Event =
    | Eval(result: ConditionResult)                                  // accept()
    | Check(elapsed: int, expired: bool)                             // check(startTime)
    | Sleep(ms: nat, interrupted: bool)                              // Thread.sleep
    | Await(handle: Handle, elapsed: int, rest: int, signaled: bool) // notifier.await(rest)

  /** How the outcome of `start` is reached; `OutOfFuel` marks a run cut off by the
      bound on the number of wait steps, which the source does not have. */
  datatype Outcome = Returned | Raised(error: Error) | OutOfFuel

  /** The outcome of a run with every event it performed. */
  datatype Trace = Trace(outcome: Outcome, log: seq<Event>)

  /** The two waiting modes. */
  datatype Mode = Polling | Awaiting(handle: Handle)

  /** How often each input has been consulted so far. */
  datatype Cursor = Cursor(evals: nat, readings: nat, awaits: nat, sleeps: nat)

  /** One wait step: its events, then either the next mode or the final outcome. */
  datatype StepResult =
    | Next(events: seq<Event>, mode: Mode, cursor: Cursor)
    | Stop(events: seq<Event>, outcome: Outcome)

  /** The mode chosen after a denied result: await its notifier if it carries one. */
  function NextMode(r: ConditionResult): Mode {
    if r.awaiting.Some? then Awaiting(r.awaiting.value) else Polling
  }

  /** The event a wait step in `mode` begins with. */
  predicate Begins(mode: Mode, e: Event) {
    match mode
    case Polling => e.Check?
    case Awaiting(h) => e.Await? && e.handle == h
  }

  /** Prefixes a trace's log with `events`. */
  function Prefixed(events: seq<Event>, t: Trace): Trace {
    Trace(t.outcome, events + t.log)
  }

  /** The body of `doAwait`: await the notifier for the rest of the timeout; when it is
      signaled re-evaluate, and return if the condition holds; check the deadline; then
      await the new notifier, or poll if there is none (always poll after an unsignaled
      await). */
  function AwaitStep(cfg: WatchConfig, env: Env, start: int, h: Handle, cur: Cursor): (s: StepResult)
    ensures |s.events| >= 2 && s.events[0].Await? && s.events[0].handle == h
    ensures s.Next? ==> s.events[|s.events| - 1].Check? && !s.events[|s.events| - 1].expired
    ensures s.Next? ==> s.cursor.readings == cur.readings + 2
    ensures s.Next? ==> s.cursor.evals >= cur.evals && s.cursor.sleeps >= cur.sleeps
    ensures s.events[0].elapsed == env.now(cur.readings) - start
    ensures s.Next? ==> s.events[|s.events| - 1].elapsed == env.now(cur.readings + 1) - start
    ensures s.Stop? && s.outcome == Returned ==> !cfg.condition(cur.evals).denied
    ensures s.Stop? ==> s.outcome == Returned || s.outcome == Raised(TimedOut)
  {
    var elapsed := env.now(cur.readings) - start;
    var signaled := env.signal(cur.awaits);
    var waited := Await(h, elapsed, cfg.timeout - elapsed, signaled);
    var c1 := cur.(readings := cur.readings + 1, awaits := cur.awaits + 1);
    if signaled then
      var r := cfg.condition(c1.evals);
      var c2 := c1.(evals := c1.evals + 1);
      if !r.denied then Stop([waited, Eval(r)], Returned)
      else
        var again := env.now(c2.readings) - start;
        var expired := CheckDeadline(start, env.now(c2.readings), cfg.timeout).Some?;
        var events := [waited, Eval(r), Check(again, expired)];
        if expired then Stop(events, Raised(TimedOut))
        else Next(events, NextMode(r), c2.(readings := c2.readings + 1))
    else
      var again := env.now(c1.readings) - start;
      var expired := CheckDeadline(start, env.now(c1.readings), cfg.timeout).Some?;
      var events := [waited, Check(again, expired)];
      if expired then Stop(events, Raised(TimedOut))
      else Next(events, Polling, c1.(readings := c1.readings + 1))
  }

  /** The body of `doPolling`: check the deadline; sleep for the polling interval when it
      is positive; re-evaluate, and return if the condition holds; check the deadline
      again; then await the new notifier, or keep polling if there is none. */
  function PollStep(cfg: WatchConfig, env: Env, start: int, cur: Cursor): (s: StepResult)
    ensures |s.events| >= 1 && s.events[0].Check?
    ensures s.Next? ==> |s.events| >= 3 && s.events[|s.events| - 1].Check? && !s.events[|s.events| - 1].expired
    ensures s.Next? ==> s.cursor.readings == cur.readings + 2
    ensures s.Next? ==> s.cursor.evals >= cur.evals && s.cursor.sleeps >= cur.sleeps
    ensures s.events[0].elapsed == env.now(cur.readings) - start
    ensures s.Next? ==> s.events[|s.events| - 1].elapsed == env.now(cur.readings + 1) - start
    ensures s.Stop? && s.outcome == Returned ==> !cfg.condition(cur.evals).denied
    ensures s.Stop? && s.outcome == Raised(Interrupted) ==> env.interrupt(cur.sleeps)
    ensures s.Stop? ==> s.outcome in {Returned, Raised(TimedOut), Raised(Interrupted)}
  {
    var elapsed := env.now(cur.readings) - start;
    var expired := CheckDeadline(start, env.now(cur.readings), cfg.timeout).Some?;
    var checked := Check(elapsed, expired);
    var c1 := cur.(readings := cur.readings + 1);
    if expired then Stop([checked], Raised(TimedOut))
    else if cfg.pollingInterval > 0 && env.interrupt(c1.sleeps) then
      Stop([checked, Sleep(cfg.pollingInterval, true)], Raised(Interrupted))
    else
      var slept := if cfg.pollingInterval > 0 then [Sleep(cfg.pollingInterval, false)] else [];
      var c2 := if cfg.pollingInterval > 0 then c1.(sleeps := c1.sleeps + 1) else c1;
      var r := cfg.condition(c2.evals);
      var c3 := c2.(evals := c2.evals + 1);
      if !r.denied then Stop([checked] + slept + [Eval(r)], Returned)
      else
        var again := env.now(c3.readings) - start;
        var expiredAgain := CheckDeadline(start, env.now(c3.readings), cfg.timeout).Some?;
        var events := [checked] + slept + [Eval(r), Check(again, expiredAgain)];
        if expiredAgain then Stop(events, Raised(TimedOut))
        else Next(events, NextMode(r), c3.(readings := c3.readings + 1))
  }

  /** One wait step in the given mode. */
  function Step(cfg: WatchConfig, env: Env, start: int, mode: Mode, cur: Cursor): (s: StepResult)
    ensures |s.events| >= 1 && Begins(mode, s.events[0])
    ensures s.Next? ==> |s.events| >= 2 && s.events[|s.events| - 1].Check? && !s.events[|s.events| - 1].expired
    ensures s.Next? ==> s.cursor.readings == cur.readings + 2
    ensures s.Next? ==> s.cursor.evals >= cur.evals && s.cursor.sleeps >= cur.sleeps
    ensures s.events[0].elapsed == env.now(cur.readings) - start
    ensures s.Next? ==> s.events[|s.events| - 1].elapsed == env.now(cur.readings + 1) - start
    ensures s.Stop? && s.outcome == Returned ==> !cfg.condition(cur.evals).denied
    ensures s.Stop? && s.outcome == Raised(Interrupted) ==> env.interrupt(cur.sleeps)
    ensures s.Stop? ==> s.outcome in {Returned, Raised(TimedOut), Raised(Interrupted)}
  {
    match mode
    case Awaiting(h) => AwaitStep(cfg, env, start, h, cur)
    case Polling => PollStep(cfg, env, start, cur)
  }

  /** The mutually tail-recursive `doAwait`/`doPolling`, entered in `mode`, with at most
      `fuel` wait steps. */
  function Continue(cfg: WatchConfig, env: Env, start: int, mode: Mode, cur: Cursor, fuel: nat): (t: Trace)
    ensures fuel > 0 <==> |t.log| > 0
    ensures |t.log| > 0 ==> Begins(mode, t.log[0])
    decreases fuel
  {
    if fuel == 0 then Trace(OutOfFuel, [])
    else
      match Step(cfg, env, start, mode, cur)
      case Stop(events, outcome) => Trace(outcome, events)
      case Next(events, next, c) => Prefixed(events, Continue(cfg, env, start, next, c, fuel - 1))
  }

  /** `start()`: read the start time, evaluate once, return if the condition holds, and
      otherwise wait in the mode the first result asks for. */
  function Run(cfg: WatchConfig, env: Env, fuel: nat): (t: Trace)
    ensures |t.log| >= 1 && t.log[0] == Eval(cfg.condition(0))
    ensures !cfg.condition(0).denied ==> t == Trace(Returned, [Eval(cfg.condition(0))])
    ensures cfg.condition(0).denied ==> (|t.log| > 1 <==> fuel > 0)
    ensures cfg.condition(0).denied && fuel > 0 ==> |t.log| > 1 && Begins(NextMode(cfg.condition(0)), t.log[1])
  {
    var r := cfg.condition(0);
    if !r.denied then Trace(Returned, [Eval(r)])
    else Prefixed([Eval(r)], Continue(cfg, env, env.now(0), NextMode(r), Cursor(1, 1, 0, 0), fuel))
  }

  /** The watcher object: the condition it was created on and its two tunables. */
  class Watcher {
    const condition: Condition
    var timeout: nat
    var pollingInterval: nat

    /** The configuration `start` runs with. */
    function Settings(): (cfg: WatchConfig)
      reads this
      ensures cfg.condition == condition && cfg.timeout == timeout
      ensures cfg.pollingInterval == pollingInterval
    {
      WatchConfig(condition, timeout, pollingInterval)
    }

    /** The private constructor: the given condition and the default tunables. */
    constructor (condition: Condition)
      ensures this.condition == condition
      ensures timeout == DefaultTimeout && pollingInterval == DefaultPollingInterval
    {
      this.condition := condition;
      timeout := DefaultTimeout;
      pollingInterval := DefaultPollingInterval;
    }

    /** `Watcher.on(condition)`; a null condition is rejected. */
    static method On(condition: Option<Condition>) returns (w: Result<Watcher, Error>)
      ensures condition.None? ==> w == Failure(InvalidArgument("condition"))
      ensures condition.Some? ==> w.Success? && fresh(w.value) && w.value.condition == condition.value
      ensures condition.Some? ==> w.value.timeout == DefaultTimeout && w.value.pollingInterval == DefaultPollingInterval
    {
      if condition.None? {
        return Failure(InvalidArgument("condition"));
      }
      var watcher := new Watcher(condition.value);
      return Success(watcher);
    }

    /** `timeout(IntervalTime)`: replaces the timeout and returns this watcher; a null
        value is rejected and changes nothing. */
    method Timeout(value: Option<nat>) returns (w: Result<Watcher, Error>)
      modifies this
      ensures value.None? ==> w == Failure(InvalidArgument("timeout")) && timeout == old(timeout)
      ensures value.Some? ==> w == Success(this) && timeout == value.value
      ensures pollingInterval == old(pollingInterval)
    {
      if value.None? {
        return Failure(InvalidArgument("timeout"));
      }
      timeout := value.value;
      return Success(this);
    }

    /** `pollingTime(IntervalTime)`: replaces the polling interval and returns this
        watcher; a null value is rejected and changes nothing. */
    method PollingTime(value: Option<nat>) returns (w: Result<Watcher, Error>)
      modifies this
      ensures value.None? ==> w == Failure(InvalidArgument("pollingInterval")) && pollingInterval == old(pollingInterval)
      ensures value.Some? ==> w == Success(this) && pollingInterval == value.value
      ensures timeout == old(timeout)
    {
      if value.None? {
        return Failure(InvalidArgument("pollingInterval"));
      }
      pollingInterval := value.value;
      return Success(this);
    }

    /** `doAwait(startTime, notifier)` up to its tail call: one wait step in await
        mode, consulting the inputs from `cur` on. */
    method DoAwait(env: Env, start: int, h: Handle, cur: Cursor) returns (s: StepResult)
      ensures s == AwaitStep(Settings(), env, start, h, cur)
    {
      var evals, readings, awaits := cur.evals, cur.readings, cur.awaits;
      var elapsed := env.now(readings) - start;
      var signaled := env.signal(awaits);
      readings, awaits := readings + 1, awaits + 1;
      var events := [Await(h, elapsed, timeout - elapsed, signaled)];
      var next := Polling;
      if signaled {
        var r := condition(evals);
        evals := evals + 1;
        events := events + [Eval(r)];
        if !r.denied {
          return Stop(events, Returned);
        }
        next := NextMode(r);
      }
      var now := env.now(readings);
      readings := readings + 1;
      var failed := CheckDeadline(start, now, timeout);
      events := events + [Check(now - start, failed.Some?)];
      if failed.Some? {
        return Stop(events, Raised(failed.value));
      }
      return Next(events, next, Cursor(evals, readings, awaits, cur.sleeps));
    }

    /** `doPolling(startTime)` up to its tail call: one wait step in poll mode,
        consulting the inputs from `cur` on. */
    method DoPolling(env: Env, start: int, cur: Cursor) returns (s: StepResult)
      ensures s == PollStep(Settings(), env, start, cur)
    {
      var evals, readings, sleeps := cur.evals, cur.readings, cur.sleeps;
      var now := env.now(readings);
      readings := readings + 1;
      var failed := CheckDeadline(start, now, timeout);
      var events := [Check(now - start, failed.Some?)];
      if failed.Some? {
        return Stop(events, Raised(failed.value));
      }
      if pollingInterval > 0 {
        var interrupted := env.interrupt(sleeps);
        events := events + [Sleep(pollingInterval, interrupted)];
        if interrupted {
          return Stop(events, Raised(Interrupted));
        }
        sleeps := sleeps + 1;
      }
      var r := condition(evals);
      evals := evals + 1;
      events := events + [Eval(r)];
      if !r.denied {
        return Stop(events, Returned);
      }
      now := env.now(readings);
      readings := readings + 1;
      failed := CheckDeadline(start, now, timeout);
      events := events + [Check(now - start, failed.Some?)];
      if failed.Some? {
        return Stop(events, Raised(failed.value));
      }
      return Next(events, NextMode(r), Cursor(evals, readings, cur.awaits, sleeps));
    }

    /** `start()` as one loop over the mode, performing at most `fuel` wait steps. It
        does what the source's recursion does, event for event; a satisfied first
        evaluation returns at once, with no check, sleep or await. */
    method Start(env: Env, fuel: nat) returns (outcome: Outcome, log: seq<Event>)
      ensures Trace(outcome, log) == Run(Settings(), env, fuel)
      ensures |log| >= 1 && log[0] == Eval(condition(0))
      ensures !condition(0).denied ==> outcome == Returned && log == [Eval(condition(0))]
    {
      ghost var cfg := Settings();
      var start := env.now(0);
      var r := condition(0);
      log := [Eval(r)];
      if !r.denied {
        return Returned, log;
      }
      var mode := NextMode(r);
      var cur := Cursor(1, 1, 0, 0);
      var left := fuel;
      while left > 0
        invariant |log| >= 1 && log[0] == Eval(condition(0))
        invariant Run(cfg, env, fuel) == Prefixed(log, Continue(cfg, env, start, mode, cur, left))
        decreases left
      {
        var s: StepResult;
        match mode {
          case Awaiting(h) => s := DoAwait(env, start, h, cur);
          case Polling => s := DoPolling(env, start, cur);
        }
        assert s == Step(cfg, env, start, mode, cur);
        if s.Stop? {
          return s.outcome, log + s.events;
        }
        PrefixedTwice(log, s.events, Continue(cfg, env, start, s.mode, s.cursor, left - 1));
        log, mode, cur, left := log + s.events, s.mode, s.cursor, left - 1;
      }
      outcome := OutOfFuel;
    }
  }

  /** Prefixing twice is prefixing with the concatenation. */
  lemma PrefixedTwice(a: seq<Event>, b: seq<Event>, t: Trace)
    ensures Prefixed(a, Prefixed(b, t)) == Prefixed(a + b, t)
  {
    assert a + (b + t.log) == (a + b) + t.log;
  }
}
