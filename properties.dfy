/** What the watcher promises about the order of its interactions, stated over the
    event log of `Run` (which `Watcher.Start` is proved to produce). */
module WatchingProperties {
  import opened Wrappers
  import opened Watching

  /** The outcome the last event of a log stands for: a satisfied evaluation returns, an
      expired check times out, an interrupted sleep raises; anything else means the run
      was cut off between two wait steps. */
  function Ending(log: seq<Event>): Outcome {
    if log == [] then OutOfFuel
    else
      match log[|log| - 1]
      case Eval(r) => if r.denied then OutOfFuel else Returned
      case Check(_, expired) => if expired then Raised(TimedOut) else OutOfFuel
      case Sleep(_, interrupted) => if interrupted then Raised(Interrupted) else OutOfFuel
      case Await(_, _, _, _) => OutOfFuel
  }

  /** A wait step seen as a trace of its own; a step that continues has no outcome yet. */
  function Block(s: StepResult): Trace {
    Trace(if s.Stop? then s.outcome else OutOfFuel, s.events)
  }

  /** Every check times out exactly when the elapsed time has reached the timeout, and a
      check that times out ends the run with the timeout error. */
  ghost predicate ChecksDecide(timeout: nat, t: Trace) {
    forall i {:trigger t.log[i]} | 0 <= i < |t.log| && t.log[i].Check? ::
      && t.log[i].expired == (t.log[i].elapsed >= timeout)
      && (t.log[i].expired ==> i == |t.log| - 1 && t.outcome == Raised(TimedOut))
  }

  /** Every sleep lasts the polling interval, which is positive, right after a check that
      passed; an interrupted sleep ends the run, any other is followed by an evaluation;
      and an evaluation right after a check means the polling interval is 0. */
  ghost predicate SleepsGuarded(interval: nat, t: Trace) {
    && (forall i {:trigger t.log[i]} | 0 <= i < |t.log| && t.log[i].Sleep? ::
          && t.log[i].ms == interval && interval > 0
          && i >= 1 && t.log[i - 1].Check? && !t.log[i - 1].expired
          && (t.log[i].interrupted ==> i == |t.log| - 1 && t.outcome == Raised(Interrupted))
          && (!t.log[i].interrupted ==> i + 1 < |t.log| && t.log[i + 1].Eval?))
    && (forall i {:trigger t.log[i]} | 1 <= i < |t.log| && t.log[i].Eval? && t.log[i - 1].Check? :: interval == 0)
  }

  /** A satisfied evaluation ends the run, which returns; a denied one at position `from`
      or later is followed by a check. */
  ghost predicate EvalsDecide(t: Trace, from: nat) {
    forall i {:trigger t.log[i]} | 0 <= i < |t.log| && t.log[i].Eval? ::
      && (!t.log[i].result.denied ==> i == |t.log| - 1 && t.outcome == Returned)
      && (t.log[i].result.denied && i >= from ==> i + 1 < |t.log| && t.log[i + 1].Check?)
  }

  /** After a denied evaluation (and, from position `from` on, the check after it) the
      next wait step is in the mode the result asks for. */
  ghost predicate ModeFollowsResults(t: Trace, from: nat) {
    forall i {:trigger t.log[i]} | 0 <= i < |t.log| && t.log[i].Eval? && t.log[i].result.denied ::
      var j := if i < from then i + 1 else i + 2;
      j < |t.log| ==> Begins(NextMode(t.log[i].result), t.log[j])
  }

  /** Every await asks for the rest of the timeout; a signaled one is followed by a
      re-evaluation, an unsignaled one by a check and then, if that check passed, by a
      step in poll mode. */
  ghost predicate AwaitsFaithful(timeout: nat, t: Trace) {
    forall i {:trigger t.log[i]} | 0 <= i < |t.log| && t.log[i].Await? ::
      && t.log[i].rest == timeout - t.log[i].elapsed
      && i + 1 < |t.log|
      && (t.log[i].signaled ==> t.log[i + 1].Eval?)
      && (!t.log[i].signaled ==>
            && t.log[i + 1].Check?
            && (!t.log[i + 1].expired && i + 2 < |t.log| ==> Begins(Polling, t.log[i + 2])))
  }

  /** The facts about one wait step from which the properties of whole runs follow. */
  ghost predicate StepOk(cfg: WatchConfig, s: StepResult)
    requires |s.events| >= 2 || s.Stop?
  {
    && ChecksDecide(cfg.timeout, Block(s))
    && SleepsGuarded(cfg.pollingInterval, Block(s))
    && EvalsDecide(Block(s), 0)
    && ModeFollowsResults(Block(s), 0)
    && AwaitsFaithful(cfg.timeout, Block(s))
    && Block(s).outcome == Ending(s.events)
    && (s.Next? ==>
          var k := |s.events| - 2;
          && (s.events[k].Eval? ==> s.events[k].result.denied && s.mode == NextMode(s.events[k].result))
          && (!s.events[k].Eval? ==> s.events[k].Await? && !s.events[k].signaled && s.mode == Polling))
  }

  // The shapes a wait step can take; each is checked once, independently of the inputs.

  function Checked(timeout: nat, elapsed: int, events: seq<Event>, next: Mode, c: Cursor): StepResult {
    if elapsed >= timeout then Stop(events + [Check(elapsed, true)], Raised(TimedOut))
    else Next(events + [Check(elapsed, false)], next, c)
  }

  lemma AwaitReturnsShape(cfg: WatchConfig, h: Handle, e: int, r: ConditionResult)
    requires !r.denied
    ensures StepOk(cfg, Stop([Await(h, e, cfg.timeout - e, true), Eval(r)], Returned))
  {
  }

  lemma AwaitSignaledShape(cfg: WatchConfig, h: Handle, e: int, r: ConditionResult, e2: int, c: Cursor)
    requires r.denied
    ensures StepOk(cfg, Checked(cfg.timeout, e2, [Await(h, e, cfg.timeout - e, true), Eval(r)], NextMode(r), c))
  {
  }

  lemma AwaitUnsignaledShape(cfg: WatchConfig, h: Handle, e: int, e2: int, c: Cursor)
    ensures StepOk(cfg, Checked(cfg.timeout, e2, [Await(h, e, cfg.timeout - e, false)], Polling, c))
  {
  }

  lemma PollTimesOutShape(cfg: WatchConfig, e: int)
    requires e >= cfg.timeout
    ensures StepOk(cfg, Stop([Check(e, true)], Raised(TimedOut)))
  {
  }

  lemma PollInterruptedShape(cfg: WatchConfig, e: int)
    requires e < cfg.timeout && cfg.pollingInterval > 0
    ensures StepOk(cfg, Stop([Check(e, false), Sleep(cfg.pollingInterval, true)], Raised(Interrupted)))
  {
  }

  lemma PollSleptReturnsShape(cfg: WatchConfig, e: int, r: ConditionResult)
    requires e < cfg.timeout && !r.denied && cfg.pollingInterval > 0
    ensures StepOk(cfg, Stop([Check(e, false), Sleep(cfg.pollingInterval, false), Eval(r)], Returned))
  {
  }

  lemma PollUnsleptReturnsShape(cfg: WatchConfig, e: int, r: ConditionResult)
    requires e < cfg.timeout && !r.denied && cfg.pollingInterval == 0
    ensures StepOk(cfg, Stop([Check(e, false), Eval(r)], Returned))
  {
  }

  lemma PollSleptTimesOutShape(cfg: WatchConfig, e: int, r: ConditionResult, e2: int)
    requires e < cfg.timeout && r.denied && cfg.pollingInterval > 0 && e2 >= cfg.timeout
    ensures StepOk(cfg, Stop([Check(e, false), Sleep(cfg.pollingInterval, false), Eval(r), Check(e2, true)], Raised(TimedOut)))
  {
  }

  lemma PollSleptContinuesShape(cfg: WatchConfig, e: int, r: ConditionResult, e2: int, c: Cursor)
    requires e < cfg.timeout && r.denied && cfg.pollingInterval > 0 && e2 < cfg.timeout
    ensures StepOk(cfg, Next([Check(e, false), Sleep(cfg.pollingInterval, false), Eval(r), Check(e2, false)], NextMode(r), c))
  {
  }

  lemma PollUnsleptShape(cfg: WatchConfig, e: int, r: ConditionResult, e2: int, c: Cursor)
    requires e < cfg.timeout && r.denied && cfg.pollingInterval == 0
    ensures StepOk(cfg, Checked(cfg.timeout, e2, [Check(e, false), Eval(r)], NextMode(r), c))
  {
  }

  /** The facts about one wait step in await mode, whatever the inputs. */
  lemma AwaitStepFacts(cfg: WatchConfig, env: Env, start: int, h: Handle, cur: Cursor)
    ensures StepOk(cfg, AwaitStep(cfg, env, start, h, cur))
  {
    var s := AwaitStep(cfg, env, start, h, cur);
    var e := env.now(cur.readings) - start;
    var e2 := env.now(cur.readings + 1) - start;
    var r := cfg.condition(cur.evals);
    if !env.signal(cur.awaits) {
      var c := cur.(readings := cur.readings + 2, awaits := cur.awaits + 1);
      assert s == Checked(cfg.timeout, e2, [Await(h, e, cfg.timeout - e, false)], Polling, c);
      AwaitUnsignaledShape(cfg, h, e, e2, c);
    } else if r.denied {
      var c := cur.(readings := cur.readings + 2, awaits := cur.awaits + 1, evals := cur.evals + 1);
      assert s == Checked(cfg.timeout, e2, [Await(h, e, cfg.timeout - e, true), Eval(r)], NextMode(r), c);
      AwaitSignaledShape(cfg, h, e, r, e2, c);
    } else {
      assert s == Stop([Await(h, e, cfg.timeout - e, true), Eval(r)], Returned);
      AwaitReturnsShape(cfg, h, e, r);
    }
  }

  /** The facts about one wait step in poll mode, whatever the inputs. */
  lemma PollStepFacts(cfg: WatchConfig, env: Env, start: int, cur: Cursor)
    ensures StepOk(cfg, PollStep(cfg, env, start, cur))
  {
    var s := PollStep(cfg, env, start, cur);
    var p := cfg.pollingInterval;
    var e := env.now(cur.readings) - start;
    var e2 := env.now(cur.readings + 1) - start;
    var r := cfg.condition(cur.evals);
    var c := cur.(readings := cur.readings + 2, evals := cur.evals + 1, sleeps := cur.sleeps + if p > 0 then 1 else 0);
    if e >= cfg.timeout {
      assert s == Stop([Check(e, true)], Raised(TimedOut));
      PollTimesOutShape(cfg, e);
    } else if p > 0 && env.interrupt(cur.sleeps) {
      assert s == Stop([Check(e, false), Sleep(p, true)], Raised(Interrupted));
      PollInterruptedShape(cfg, e);
    } else if !r.denied && p > 0 {
      assert s == Stop([Check(e, false), Sleep(p, false), Eval(r)], Returned);
      PollSleptReturnsShape(cfg, e, r);
    } else if !r.denied {
      assert s == Stop([Check(e, false), Eval(r)], Returned);
      PollUnsleptReturnsShape(cfg, e, r);
    } else if p == 0 {
      assert s == Checked(cfg.timeout, e2, [Check(e, false), Eval(r)], NextMode(r), c);
      PollUnsleptShape(cfg, e, r, e2, c);
    } else if e2 >= cfg.timeout {
      assert s == Stop([Check(e, false), Sleep(p, false), Eval(r), Check(e2, true)], Raised(TimedOut));
      PollSleptTimesOutShape(cfg, e, r, e2);
    } else {
      assert s == Next([Check(e, false), Sleep(p, false), Eval(r), Check(e2, false)], NextMode(r), c);
      PollSleptContinuesShape(cfg, e, r, e2, c);
    }
  }

  /** The facts about one wait step, whatever the mode and the inputs. */
  lemma StepFacts(cfg: WatchConfig, env: Env, start: int, mode: Mode, cur: Cursor)
    ensures StepOk(cfg, Step(cfg, env, start, mode, cur))
  {
    match mode
    case Awaiting(h) => AwaitStepFacts(cfg, env, start, h, cur);
    case Polling => PollStepFacts(cfg, env, start, cur);
  }

  // The facts about one wait step, one property at a time.

  lemma StepChecks(cfg: WatchConfig, env: Env, start: int, mode: Mode, cur: Cursor)
    ensures var s := Step(cfg, env, start, mode, cur); ChecksDecide(cfg.timeout, Block(s))
  {
    StepFacts(cfg, env, start, mode, cur);
  }

  lemma StepSleeps(cfg: WatchConfig, env: Env, start: int, mode: Mode, cur: Cursor)
    ensures var s := Step(cfg, env, start, mode, cur); SleepsGuarded(cfg.pollingInterval, Block(s))
  {
    StepFacts(cfg, env, start, mode, cur);
  }

  lemma StepEvals(cfg: WatchConfig, env: Env, start: int, mode: Mode, cur: Cursor)
    ensures var s := Step(cfg, env, start, mode, cur); EvalsDecide(Block(s), 0)
  {
    StepFacts(cfg, env, start, mode, cur);
  }

  lemma StepModes(cfg: WatchConfig, env: Env, start: int, mode: Mode, cur: Cursor)
    ensures var s := Step(cfg, env, start, mode, cur); ModeFollowsResults(Block(s), 0)
  {
    StepFacts(cfg, env, start, mode, cur);
  }

  lemma StepAwaits(cfg: WatchConfig, env: Env, start: int, mode: Mode, cur: Cursor)
    ensures var s := Step(cfg, env, start, mode, cur); AwaitsFaithful(cfg.timeout, Block(s))
  {
    StepFacts(cfg, env, start, mode, cur);
  }

  lemma StepEnds(cfg: WatchConfig, env: Env, start: int, mode: Mode, cur: Cursor)
    ensures var s := Step(cfg, env, start, mode, cur); Block(s).outcome == Ending(s.events)
  {
    StepFacts(cfg, env, start, mode, cur);
  }

  /** What holds where a wait step that continues meets the rest of the loop: the step
      ends with a passed check, the event before it is the denied evaluation that chose
      the next mode or an unsignaled await, and the rest begins in the next mode. */
  ghost predicate Joinable(s: StepResult, rest: Trace) {
    && s.Next? && |s.events| >= 2
    && s.events[|s.events| - 1].Check? && !s.events[|s.events| - 1].expired
    && (var k := |s.events| - 2;
        && (s.events[k].Eval? ==> s.events[k].result.denied && s.mode == NextMode(s.events[k].result))
        && (!s.events[k].Eval? ==> s.events[k].Await? && !s.events[k].signaled && s.mode == Polling))
    && (|rest.log| > 0 ==> Begins(s.mode, rest.log[0]))
  }

  /** The loop after a step that continues is that step's events in front of the loop
      entered in the next mode, and the two are joinable. */
  lemma ContinueNext(cfg: WatchConfig, env: Env, start: int, mode: Mode, cur: Cursor, fuel: nat)
    requires fuel > 0 && Step(cfg, env, start, mode, cur).Next?
    ensures var s := Step(cfg, env, start, mode, cur);
      var rest := Continue(cfg, env, start, s.mode, s.cursor, fuel - 1);
      && Continue(cfg, env, start, mode, cur, fuel) == Prefixed(s.events, rest)
      && Joinable(s, rest)
  {
    StepFacts(cfg, env, start, mode, cur);
  }

  /** The loop after a step that stops is that step alone. */
  lemma ContinueStop(cfg: WatchConfig, env: Env, start: int, mode: Mode, cur: Cursor, fuel: nat)
    requires fuel > 0 && Step(cfg, env, start, mode, cur).Stop?
    ensures Continue(cfg, env, start, mode, cur, fuel) == Block(Step(cfg, env, start, mode, cur))
  {
  }

  // Whole runs. Each property is first proved for the wait loop entered in any mode
  // (by induction on the wait steps), then for `Run`, whose log starts with the first
  // evaluation.

  lemma ChecksAppend(timeout: nat, s: StepResult, rest: Trace)
    requires s.Next? && ChecksDecide(timeout, Block(s)) && ChecksDecide(timeout, rest)
    ensures ChecksDecide(timeout, Prefixed(s.events, rest))
  {
    var t := Prefixed(s.events, rest);
    var n := |s.events|;
    forall i {:trigger t.log[i]} | 0 <= i < |t.log| && t.log[i].Check?
      ensures t.log[i].expired == (t.log[i].elapsed >= timeout)
      ensures t.log[i].expired ==> i == |t.log| - 1 && t.outcome == Raised(TimedOut)
    {
      if i < n {
        assert t.log[i] == Block(s).log[i];
      } else {
        assert t.log[i] == rest.log[i - n];
      }
    }
  }

  lemma {:induction false} ChecksDecideFrom(cfg: WatchConfig, env: Env, start: int, mode: Mode, cur: Cursor, fuel: nat)
    ensures ChecksDecide(cfg.timeout, Continue(cfg, env, start, mode, cur, fuel))
    decreases fuel
  {
    if fuel > 0 {
      var s := Step(cfg, env, start, mode, cur);
      StepChecks(cfg, env, start, mode, cur);
      if s.Next? {
        ChecksDecideFrom(cfg, env, start, s.mode, s.cursor, fuel - 1);
        ContinueNext(cfg, env, start, mode, cur, fuel);
        ChecksAppend(cfg.timeout, s, Continue(cfg, env, start, s.mode, s.cursor, fuel - 1));
      } else {
        ContinueStop(cfg, env, start, mode, cur, fuel);
      }
    }
  }

  /** `check` (and every check of a run) times out exactly when the elapsed time has
      reached the timeout, and the timeout ends the run. */
  lemma ChecksDecideTimeout(cfg: WatchConfig, env: Env, fuel: nat)
    ensures ChecksDecide(cfg.timeout, Run(cfg, env, fuel))
  {
    var r := cfg.condition(0);
    if r.denied {
      var c := Continue(cfg, env, env.now(0), NextMode(r), Cursor(1, 1, 0, 0), fuel);
      ChecksDecideFrom(cfg, env, env.now(0), NextMode(r), Cursor(1, 1, 0, 0), fuel);
      var t := Run(cfg, env, fuel);
      forall i {:trigger t.log[i]} | 0 <= i < |t.log| && t.log[i].Check?
        ensures t.log[i].expired == (t.log[i].elapsed >= cfg.timeout)
        ensures t.log[i].expired ==> i == |t.log| - 1 && t.outcome == Raised(TimedOut)
      {
        assert t.log[i] == c.log[i - 1];
      }
    }
  }

  lemma SleepsAppend(interval: nat, s: StepResult, rest: Trace)
    requires Joinable(s, rest)
    requires SleepsGuarded(interval, Block(s)) && SleepsGuarded(interval, rest)
    ensures SleepsGuarded(interval, Prefixed(s.events, rest))
  {
    var t := Prefixed(s.events, rest);
    var n := |s.events|;
    forall i {:trigger t.log[i]} | 0 <= i < |t.log| && t.log[i].Sleep?
      ensures t.log[i].ms == interval && interval > 0
      ensures i >= 1 && t.log[i - 1].Check? && !t.log[i - 1].expired
      ensures t.log[i].interrupted ==> i == |t.log| - 1 && t.outcome == Raised(Interrupted)
      ensures !t.log[i].interrupted ==> i + 1 < |t.log| && t.log[i + 1].Eval?
    {
      if i < n {
        assert t.log[i] == Block(s).log[i];
        assert t.log[i - 1] == Block(s).log[i - 1];
        if i + 1 < n {
          assert t.log[i + 1] == Block(s).log[i + 1];
        }
      } else {
        assert t.log[i] == rest.log[i - n];
        assert t.log[i - 1] == rest.log[i - 1 - n];
        if i + 1 < |t.log| {
          assert t.log[i + 1] == rest.log[i + 1 - n];
        }
      }
    }
    forall i {:trigger t.log[i]} | 1 <= i < |t.log| && t.log[i].Eval? && t.log[i - 1].Check?
      ensures interval == 0
    {
      if i < n {
        assert t.log[i] == Block(s).log[i];
        assert t.log[i - 1] == Block(s).log[i - 1];
      } else {
        assert t.log[i] == rest.log[i - n];
        assert i - n >= 1;
        assert t.log[i - 1] == rest.log[i - 1 - n];
      }
    }
  }

  lemma {:induction false} SleepsGuardedFrom(cfg: WatchConfig, env: Env, start: int, mode: Mode, cur: Cursor, fuel: nat)
    ensures SleepsGuarded(cfg.pollingInterval, Continue(cfg, env, start, mode, cur, fuel))
    decreases fuel
  {
    if fuel > 0 {
      var s := Step(cfg, env, start, mode, cur);
      StepSleeps(cfg, env, start, mode, cur);
      if s.Next? {
        SleepsGuardedFrom(cfg, env, start, s.mode, s.cursor, fuel - 1);
        ContinueNext(cfg, env, start, mode, cur, fuel);
        SleepsAppend(cfg.pollingInterval, s, Continue(cfg, env, start, s.mode, s.cursor, fuel - 1));
      } else {
        ContinueStop(cfg, env, start, mode, cur, fuel);
      }
    }
  }

  /** A sleep happens only in poll mode with a positive interval, lasts exactly that
      interval and comes right after a passed check; an interruption ends the run, and
      otherwise the condition is re-evaluated next. With a zero interval the
      re-evaluation follows the check directly. */
  lemma SleepsFollowPassedChecks(cfg: WatchConfig, env: Env, fuel: nat)
    ensures SleepsGuarded(cfg.pollingInterval, Run(cfg, env, fuel))
  {
    var r := cfg.condition(0);
    if r.denied {
      var c := Continue(cfg, env, env.now(0), NextMode(r), Cursor(1, 1, 0, 0), fuel);
      SleepsGuardedFrom(cfg, env, env.now(0), NextMode(r), Cursor(1, 1, 0, 0), fuel);
      var t := Run(cfg, env, fuel);
      forall i {:trigger t.log[i]} | 0 <= i < |t.log| && t.log[i].Sleep?
        ensures t.log[i].ms == cfg.pollingInterval && cfg.pollingInterval > 0
        ensures i >= 1 && t.log[i - 1].Check? && !t.log[i - 1].expired
        ensures t.log[i].interrupted ==> i == |t.log| - 1 && t.outcome == Raised(Interrupted)
        ensures !t.log[i].interrupted ==> i + 1 < |t.log| && t.log[i + 1].Eval?
      {
        assert t.log[i] == c.log[i - 1];
        assert t.log[i - 1] == c.log[i - 2];
        if i + 1 < |t.log| {
          assert t.log[i + 1] == c.log[i];
        }
      }
      forall i {:trigger t.log[i]} | 1 <= i < |t.log| && t.log[i].Eval? && t.log[i - 1].Check?
        ensures cfg.pollingInterval == 0
      {
        assert t.log[i] == c.log[i - 1];
        assert t.log[i - 1] == c.log[i - 2];
      }
    }
  }

  lemma EvalsAppend(s: StepResult, rest: Trace)
    requires s.Next? && EvalsDecide(Block(s), 0) && EvalsDecide(rest, 0)
    ensures EvalsDecide(Prefixed(s.events, rest), 0)
  {
    var t := Prefixed(s.events, rest);
    var n := |s.events|;
    forall i {:trigger t.log[i]} | 0 <= i < |t.log| && t.log[i].Eval?
      ensures !t.log[i].result.denied ==> i == |t.log| - 1 && t.outcome == Returned
      ensures t.log[i].result.denied ==> i + 1 < |t.log| && t.log[i + 1].Check?
    {
      if i < n {
        assert t.log[i] == Block(s).log[i];
        if i + 1 < n {
          assert t.log[i + 1] == Block(s).log[i + 1];
        }
      } else {
        assert t.log[i] == rest.log[i - n];
        if i + 1 < |t.log| {
          assert t.log[i + 1] == rest.log[i + 1 - n];
        }
      }
    }
  }

  lemma {:induction false} EvalsDecideFrom(cfg: WatchConfig, env: Env, start: int, mode: Mode, cur: Cursor, fuel: nat)
    ensures EvalsDecide(Continue(cfg, env, start, mode, cur, fuel), 0)
    decreases fuel
  {
    if fuel > 0 {
      var s := Step(cfg, env, start, mode, cur);
      StepEvals(cfg, env, start, mode, cur);
      if s.Next? {
        EvalsDecideFrom(cfg, env, start, s.mode, s.cursor, fuel - 1);
        ContinueNext(cfg, env, start, mode, cur, fuel);
        EvalsAppend(s, Continue(cfg, env, start, s.mode, s.cursor, fuel - 1));
      } else {
        ContinueStop(cfg, env, start, mode, cur, fuel);
      }
    }
  }

  /** Evaluation is decisive: a satisfied evaluation ends the run, which returns, and
      every denied re-evaluation is followed by a check; only the first evaluation, in
      `start`, is not. */
  lemma EvaluationsDecide(cfg: WatchConfig, env: Env, fuel: nat)
    ensures EvalsDecide(Run(cfg, env, fuel), 1)
  {
    var r := cfg.condition(0);
    if r.denied {
      var c := Continue(cfg, env, env.now(0), NextMode(r), Cursor(1, 1, 0, 0), fuel);
      EvalsDecideFrom(cfg, env, env.now(0), NextMode(r), Cursor(1, 1, 0, 0), fuel);
      var t := Run(cfg, env, fuel);
      forall i {:trigger t.log[i]} | 0 <= i < |t.log| && t.log[i].Eval?
        ensures !t.log[i].result.denied ==> i == |t.log| - 1 && t.outcome == Returned
        ensures t.log[i].result.denied && i >= 1 ==> i + 1 < |t.log| && t.log[i + 1].Check?
      {
        if i >= 1 {
          assert t.log[i] == c.log[i - 1];
          if i + 1 < |t.log| {
            assert t.log[i + 1] == c.log[i];
          }
        }
      }
    }
  }

  lemma ModesAppend(s: StepResult, rest: Trace)
    requires Joinable(s, rest)
    requires ModeFollowsResults(Block(s), 0) && ModeFollowsResults(rest, 0)
    ensures ModeFollowsResults(Prefixed(s.events, rest), 0)
  {
    var t := Prefixed(s.events, rest);
    var n := |s.events|;
    forall i {:trigger t.log[i]} | 0 <= i < |t.log| && t.log[i].Eval? && t.log[i].result.denied && i + 2 < |t.log|
      ensures Begins(NextMode(t.log[i].result), t.log[i + 2])
    {
      if i + 2 < n {
        assert t.log[i] == Block(s).log[i];
        assert t.log[i + 2] == Block(s).log[i + 2];
      } else if i + 2 == n {
        assert t.log[i] == s.events[n - 2];
        assert t.log[i + 2] == rest.log[0];
      } else if i >= n {
        assert t.log[i] == rest.log[i - n];
        assert t.log[i + 2] == rest.log[i - n + 2];
      }
    }
  }

  lemma {:induction false} ModeFollowsFrom(cfg: WatchConfig, env: Env, start: int, mode: Mode, cur: Cursor, fuel: nat)
    ensures ModeFollowsResults(Continue(cfg, env, start, mode, cur, fuel), 0)
    decreases fuel
  {
    if fuel > 0 {
      var s := Step(cfg, env, start, mode, cur);
      StepModes(cfg, env, start, mode, cur);
      if s.Next? {
        ModeFollowsFrom(cfg, env, start, s.mode, s.cursor, fuel - 1);
        ContinueNext(cfg, env, start, mode, cur, fuel);
        ModesAppend(s, Continue(cfg, env, start, s.mode, s.cursor, fuel - 1));
      } else {
        ContinueStop(cfg, env, start, mode, cur, fuel);
      }
    }
  }

  /** After a denied evaluation the watcher waits in the mode the result asks for: on
      its notifier if it carries one, by polling otherwise. In `start` this follows the
      first evaluation directly; later, the check after the evaluation comes first. */
  lemma NextModeFollowsResult(cfg: WatchConfig, env: Env, fuel: nat)
    ensures ModeFollowsResults(Run(cfg, env, fuel), 1)
  {
    var r := cfg.condition(0);
    if r.denied {
      var c := Continue(cfg, env, env.now(0), NextMode(r), Cursor(1, 1, 0, 0), fuel);
      ModeFollowsFrom(cfg, env, env.now(0), NextMode(r), Cursor(1, 1, 0, 0), fuel);
      var t := Run(cfg, env, fuel);
      forall i {:trigger t.log[i]} | 0 <= i < |t.log| && t.log[i].Eval? && t.log[i].result.denied
        ensures var j := if i < 1 then i + 1 else i + 2;
          j < |t.log| ==> Begins(NextMode(t.log[i].result), t.log[j])
      {
        if i == 0 {
          if 1 < |t.log| {
            assert t.log[1] == c.log[0];
          }
        } else {
          assert t.log[i] == c.log[i - 1];
          if i + 2 < |t.log| {
            assert t.log[i + 2] == c.log[i + 1];
          }
        }
      }
    }
  }

  lemma AwaitsAppend(timeout: nat, s: StepResult, rest: Trace)
    requires Joinable(s, rest)
    requires AwaitsFaithful(timeout, Block(s)) && AwaitsFaithful(timeout, rest)
    ensures AwaitsFaithful(timeout, Prefixed(s.events, rest))
  {
    var t := Prefixed(s.events, rest);
    var n := |s.events|;
    forall i {:trigger t.log[i]} | 0 <= i < |t.log| && t.log[i].Await?
      ensures t.log[i].rest == timeout - t.log[i].elapsed
      ensures i + 1 < |t.log|
      ensures t.log[i].signaled ==> t.log[i + 1].Eval?
      ensures !t.log[i].signaled ==> t.log[i + 1].Check?
      ensures !t.log[i].signaled && !t.log[i + 1].expired && i + 2 < |t.log| ==> Begins(Polling, t.log[i + 2])
    {
      if i < n {
        assert t.log[i] == Block(s).log[i];
        assert t.log[i + 1] == Block(s).log[i + 1];
        if i + 2 < n {
          assert t.log[i + 2] == Block(s).log[i + 2];
        } else if i + 2 == n && i + 2 < |t.log| {
          assert t.log[i + 2] == rest.log[0];
        }
      } else {
        assert t.log[i] == rest.log[i - n];
        assert t.log[i + 1] == rest.log[i + 1 - n];
        if i + 2 < |t.log| {
          assert t.log[i + 2] == rest.log[i + 2 - n];
        }
      }
    }
  }

  lemma {:induction false} AwaitsFaithfulFrom(cfg: WatchConfig, env: Env, start: int, mode: Mode, cur: Cursor, fuel: nat)
    ensures AwaitsFaithful(cfg.timeout, Continue(cfg, env, start, mode, cur, fuel))
    decreases fuel
  {
    if fuel > 0 {
      var s := Step(cfg, env, start, mode, cur);
      StepAwaits(cfg, env, start, mode, cur);
      if s.Next? {
        AwaitsFaithfulFrom(cfg, env, start, s.mode, s.cursor, fuel - 1);
        ContinueNext(cfg, env, start, mode, cur, fuel);
        AwaitsAppend(cfg.timeout, s, Continue(cfg, env, start, s.mode, s.cursor, fuel - 1));
      } else {
        ContinueStop(cfg, env, start, mode, cur, fuel);
      }
    }
  }

  /** Every await asks for `timeout - (now - startTime)`; a signaled await is followed
      by a re-evaluation; an unsignaled one by a check and, when that passes, by poll
      mode, without re-evaluating the condition. */
  lemma AwaitsRequestRemainingTime(cfg: WatchConfig, env: Env, fuel: nat)
    ensures AwaitsFaithful(cfg.timeout, Run(cfg, env, fuel))
  {
    var r := cfg.condition(0);
    if r.denied {
      var c := Continue(cfg, env, env.now(0), NextMode(r), Cursor(1, 1, 0, 0), fuel);
      AwaitsFaithfulFrom(cfg, env, env.now(0), NextMode(r), Cursor(1, 1, 0, 0), fuel);
      var t := Run(cfg, env, fuel);
      forall i {:trigger t.log[i]} | 0 <= i < |t.log| && t.log[i].Await?
        ensures t.log[i].rest == cfg.timeout - t.log[i].elapsed
        ensures i + 1 < |t.log|
        ensures t.log[i].signaled ==> t.log[i + 1].Eval?
        ensures !t.log[i].signaled ==> t.log[i + 1].Check?
        ensures !t.log[i].signaled && !t.log[i + 1].expired && i + 2 < |t.log| ==> Begins(Polling, t.log[i + 2])
      {
        assert t.log[i] == c.log[i - 1];
        assert t.log[i + 1] == c.log[i];
        if i + 2 < |t.log| {
          assert t.log[i + 2] == c.log[i + 1];
        }
      }
    }
  }

  lemma EndsAppend(s: StepResult, rest: Trace)
    requires Joinable(s, rest) && rest.outcome == Ending(rest.log)
    ensures Prefixed(s.events, rest).outcome == Ending(s.events + rest.log)
  {
    var log := s.events + rest.log;
    if rest.log != [] {
      assert log[|log| - 1] == rest.log[|rest.log| - 1];
    } else {
      assert log == s.events;
    }
  }

  lemma {:induction false} OutcomeEndsFrom(cfg: WatchConfig, env: Env, start: int, mode: Mode, cur: Cursor, fuel: nat)
    ensures var t := Continue(cfg, env, start, mode, cur, fuel); t.outcome == Ending(t.log)
    decreases fuel
  {
    if fuel > 0 {
      var s := Step(cfg, env, start, mode, cur);
      StepEnds(cfg, env, start, mode, cur);
      if s.Next? {
        OutcomeEndsFrom(cfg, env, start, s.mode, s.cursor, fuel - 1);
        ContinueNext(cfg, env, start, mode, cur, fuel);
        EndsAppend(s, Continue(cfg, env, start, s.mode, s.cursor, fuel - 1));
      } else {
        ContinueStop(cfg, env, start, mode, cur, fuel);
      }
    }
  }

  /** `start` returns normally exactly when its last evaluation was satisfied; it raises
      the timeout error exactly when its last check expired, and the wrapped
      interruption exactly when its last sleep was interrupted; it never raises anything
      else (in particular no invalid-argument error). */
  lemma OutcomeIsLastEvent(cfg: WatchConfig, env: Env, fuel: nat)
    ensures var t := Run(cfg, env, fuel); t.outcome == Ending(t.log)
    ensures var t := Run(cfg, env, fuel); !(t.outcome.Raised? && t.outcome.error.InvalidArgument?)
  {
    var r := cfg.condition(0);
    if r.denied {
      var c := Continue(cfg, env, env.now(0), NextMode(r), Cursor(1, 1, 0, 0), fuel);
      OutcomeEndsFrom(cfg, env, env.now(0), NextMode(r), Cursor(1, 1, 0, 0), fuel);
      var t := Run(cfg, env, fuel);
      if c.log != [] {
        assert t.log[|t.log| - 1] == c.log[|c.log| - 1];
      } else {
        assert t.log == [Eval(r)];
      }
    }
  }
}
