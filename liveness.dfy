/** When and how the watcher stops: with a clock that advances, `start` always ends
    within a bounded number of wait steps, and a condition that is never satisfied ends
    in the timeout error; a condition satisfied after `k` denials in poll mode returns
    after exactly `k` polling rounds. */
module WatchingLiveness {
  import opened Watching

  /** The wait loop entered with the cursor `cur` ends, with one of the three outcomes,
      within `fuel` wait steps when every clock reading lies at least its index after
      `start` and the readings left cover the timeout; it does not return when no later
      evaluation is satisfied, and is not interrupted when no later sleep is. */
  lemma {:induction false} ContinueFinishes(cfg: WatchConfig, env: Env, start: int, mode: Mode, cur: Cursor, fuel: nat)
    requires forall k: nat :: env.now(k) - start >= k
    requires fuel >= 1 && cur.readings + 2 * fuel > cfg.timeout
    ensures Continue(cfg, env, start, mode, cur, fuel).outcome in {Returned, Raised(TimedOut), Raised(Interrupted)}
    ensures (forall k: nat :: k >= cur.evals ==> cfg.condition(k).denied) ==>
              Continue(cfg, env, start, mode, cur, fuel).outcome != Returned
    ensures (forall k: nat :: k >= cur.sleeps ==> !env.interrupt(k)) ==>
              Continue(cfg, env, start, mode, cur, fuel).outcome != Raised(Interrupted)
    decreases fuel
  {
    var s := Step(cfg, env, start, mode, cur);
    if s.Next? {
      // the step's last check read the clock at `cur.readings + 1` and passed
      assert env.now(cur.readings + 1) - start >= cur.readings + 1;
      ContinueFinishes(cfg, env, start, s.mode, s.cursor, fuel - 1);
    }
  }

  /** With a clock whose `k`-th reading is at least `k` ms after the start reading, `start`
      returns or raises the timeout or the interruption error within
      `max(1, ⌈timeout / 2⌉)` wait steps: a bound of at least that many wait steps never
      cuts it off. */
  lemma TerminatesWhenClockAdvances(cfg: WatchConfig, env: Env, fuel: nat)
    requires forall k: nat :: env.now(k) - env.now(0) >= k
    requires fuel >= 1 && 2 * fuel >= cfg.timeout
    ensures Run(cfg, env, fuel).outcome in {Returned, Raised(TimedOut), Raised(Interrupted)}
  {
    var r := cfg.condition(0);
    if r.denied {
      ContinueFinishes(cfg, env, env.now(0), NextMode(r), Cursor(1, 1, 0, 0), fuel);
    }
  }

  /** A condition that is never satisfied, with no interrupted sleep and a clock whose
      `k`-th reading is at least `k` ms after the start reading, makes `start` raise the
      timeout error. */
  lemma TimesOutWhenNeverSatisfied(cfg: WatchConfig, env: Env, fuel: nat)
    requires forall k: nat :: env.now(k) - env.now(0) >= k
    requires fuel >= 1 && 2 * fuel >= cfg.timeout
    requires forall k: nat :: cfg.condition(k).denied
    requires forall k: nat :: !env.interrupt(k)
    ensures Run(cfg, env, fuel).outcome == Raised(TimedOut)
  {
    assert cfg.condition(0).denied;
    ContinueFinishes(cfg, env, env.now(0), NextMode(cfg.condition(0)), Cursor(1, 1, 0, 0), fuel);
  }

  /** How many events of each kind a log holds. */
  datatype Tally = Tally(evals: int, checks: int, sleeps: int, awaits: int)

  /** Kind-by-kind sum of two tallies. */
  function Plus(a: Tally, b: Tally): Tally {
    Tally(a.evals + b.evals, a.checks + b.checks, a.sleeps + b.sleeps, a.awaits + b.awaits)
  }

  /** An event counted by its kind. */
  function Kind(e: Event): Tally {
    match e
    case Eval(_) => Tally(1, 0, 0, 0)
    case Check(_, _) => Tally(0, 1, 0, 0)
    case Sleep(_, _) => Tally(0, 0, 1, 0)
    case Await(_, _, _, _) => Tally(0, 0, 0, 1)
  }

  /** The events of `log`, counted by kind. */
  function Count(log: seq<Event>): Tally {
    if log == [] then Tally(0, 0, 0, 0) else Plus(Kind(log[0]), Count(log[1..]))
  }

  /** Counting is additive over concatenation. */
  lemma {:induction false} CountConcat(a: seq<Event>, b: seq<Event>)
    ensures Count(a + b) == Plus(Count(a), Count(b))
    decreases |a|
  {
    if a == [] {
      assert a + b == b;
    } else {
      assert (a + b)[0] == a[0];
      assert (a + b)[1..] == a[1..] + b;
      CountConcat(a[1..], b);
    }
  }

  /** The events of a polling round: a passed check, the sleep when the interval is
      positive, the evaluation and, after a denial, the second check. */
  function Round(p: nat, e: int, r: ConditionResult, again: seq<Event>): seq<Event> {
    [Check(e, false)] + (if p > 0 then [Sleep(p, false)] else []) + [Eval(r)] + again
  }

  /** A single event is counted by its kind. */
  lemma CountSingle(e: Event)
    ensures Count([e]) == Kind(e)
  {
    assert [e][1..] == [];
  }

  /** A log with one more event in front counts that event once more. */
  lemma CountCons(e: Event, log: seq<Event>)
    ensures Count([e] + log) == Plus(Kind(e), Count(log))
  {
    CountConcat([e], log);
    CountSingle(e);
  }

  /** Two and three events in front, counted one by one. */
  lemma CountTwo(x: Event, y: Event, log: seq<Event>)
    ensures Count([x] + ([y] + log)) == Plus(Kind(x), Plus(Kind(y), Count(log)))
  {
    CountCons(x, [y] + log);
    CountCons(y, log);
  }

  lemma CountThree(x: Event, y: Event, z: Event, log: seq<Event>)
    ensures Count([x] + ([y] + ([z] + log))) == Plus(Kind(x), Plus(Kind(y), Plus(Kind(z), Count(log))))
  {
    CountCons(x, [y] + ([z] + log));
    CountTwo(y, z, log);
  }

  /** A polling round counts one evaluation and one check, the sleep when the interval is
      positive, and what follows the evaluation. */
  lemma RoundCount(p: nat, e: int, r: ConditionResult, again: seq<Event>)
    ensures Count(Round(p, e, r, again)) == Plus(Tally(1, 1, PerRound(p), 0), Count(again))
  {
    var checked := Check(e, false);
    var evaluated := Eval(r);
    if p > 0 {
      var slept := Sleep(p, false);
      assert Round(p, e, r, again) == [checked] + ([slept] + ([evaluated] + again));
      CountThree(checked, slept, evaluated, again);
    } else {
      assert Round(p, e, r, again) == [checked] + ([evaluated] + again);
      CountTwo(checked, evaluated, again);
    }
  }

  /** The last polling round, whose evaluation is satisfied. */
  lemma LastRoundCount(p: nat, e: int, r: ConditionResult)
    ensures Count(Round(p, e, r, [])) == Tally(1, 1, PerRound(p), 0)
  {
    RoundCount(p, e, r, []);
  }

  /** A denied round whose second check passed counts one evaluation, two checks and the
      sleep when the interval is positive. */
  lemma DeniedRoundCount(p: nat, e: int, r: ConditionResult, e2: int)
    ensures Count(Round(p, e, r, [Check(e2, false)])) == Tally(1, 2, PerRound(p), 0)
  {
    RoundCount(p, e, r, [Check(e2, false)]);
    CountSingle(Check(e2, false));
  }

  /** Sleeps per polling round. */
  function PerRound(p: nat): nat {
    if p > 0 then 1 else 0
  }

  /** The events of `n` denied polling rounds and a satisfied one: `n + 1` evaluations,
      `2n + 1` checks, a sleep per round when the interval is positive, and no await. */
  function Expected(p: nat, n: nat): Tally {
    Tally(n + 1, 2 * n + 1, if p > 0 then n + 1 else 0, 0)
  }

  /** A polling round whose check passes, whose sleep is not interrupted and whose
      evaluation is satisfied returns. */
  lemma PollReturns(cfg: WatchConfig, env: Env, start: int, cur: Cursor)
    requires env.now(cur.readings) - start < cfg.timeout
    requires !env.interrupt(cur.sleeps)
    requires !cfg.condition(cur.evals).denied
    ensures PollStep(cfg, env, start, cur)
              == Stop(Round(cfg.pollingInterval, env.now(cur.readings) - start, cfg.condition(cur.evals), []), Returned)
  {
    var p := cfg.pollingInterval;
    var slept := if p > 0 then [Sleep(p, false)] else [];
    var e := env.now(cur.readings) - start;
    assert Round(p, e, cfg.condition(cur.evals), []) == [Check(e, false)] + slept + [Eval(cfg.condition(cur.evals))];
  }

  /** A polling round whose checks pass, whose sleep is not interrupted and whose
      evaluation is denied without a notifier stays in poll mode. */
  lemma PollRepeats(cfg: WatchConfig, env: Env, start: int, cur: Cursor)
    requires env.now(cur.readings) - start < cfg.timeout
    requires env.now(cur.readings + 1) - start < cfg.timeout
    requires !env.interrupt(cur.sleeps)
    requires cfg.condition(cur.evals).denied && cfg.condition(cur.evals).awaiting.None?
    ensures PollStep(cfg, env, start, cur)
              == Next(Round(cfg.pollingInterval, env.now(cur.readings) - start, cfg.condition(cur.evals),
                            [Check(env.now(cur.readings + 1) - start, false)]),
                      Polling, NextPoll(cfg, cur))
  {
    var p := cfg.pollingInterval;
    var slept := if p > 0 then [Sleep(p, false)] else [];
    var e := env.now(cur.readings) - start;
    var again := [Check(env.now(cur.readings + 1) - start, false)];
    var r := cfg.condition(cur.evals);
    assert Round(p, e, r, again) == [Check(e, false)] + slept + [Eval(r), again[0]];
  }

  /** The cursor after a polling round that was denied and passed its second check. */
  function NextPoll(cfg: WatchConfig, cur: Cursor): Cursor {
    cur.(readings := cur.readings + 2, evals := cur.evals + 1,
         sleeps := cur.sleeps + PerRound(cfg.pollingInterval))
  }

  /** The wait loop in poll mode, when that round returns. */
  lemma ContinueReturns(cfg: WatchConfig, env: Env, start: int, cur: Cursor, fuel: nat)
    requires env.now(cur.readings) - start < cfg.timeout
    requires !env.interrupt(cur.sleeps)
    requires !cfg.condition(cur.evals).denied
    requires fuel > 0
    ensures Continue(cfg, env, start, Polling, cur, fuel)
              == Trace(Returned, Round(cfg.pollingInterval, env.now(cur.readings) - start, cfg.condition(cur.evals), []))
  {
    assert Step(cfg, env, start, Polling, cur) == PollStep(cfg, env, start, cur);
    PollReturns(cfg, env, start, cur);
  }

  /** The wait loop in poll mode, when that round is denied and polls again. */
  lemma ContinueRepeats(cfg: WatchConfig, env: Env, start: int, cur: Cursor, fuel: nat)
    requires env.now(cur.readings) - start < cfg.timeout
    requires env.now(cur.readings + 1) - start < cfg.timeout
    requires !env.interrupt(cur.sleeps)
    requires cfg.condition(cur.evals).denied && cfg.condition(cur.evals).awaiting.None?
    requires fuel > 0
    ensures Continue(cfg, env, start, Polling, cur, fuel)
              == Prefixed(Round(cfg.pollingInterval, env.now(cur.readings) - start, cfg.condition(cur.evals),
                                [Check(env.now(cur.readings + 1) - start, false)]),
                          Continue(cfg, env, start, Polling, NextPoll(cfg, cur), fuel - 1))
  {
    var round := Round(cfg.pollingInterval, env.now(cur.readings) - start, cfg.condition(cur.evals),
                       [Check(env.now(cur.readings + 1) - start, false)]);
    assert Step(cfg, env, start, Polling, cur) == Next(round, Polling, NextPoll(cfg, cur)) by {
      assert Step(cfg, env, start, Polling, cur) == PollStep(cfg, env, start, cur);
      PollRepeats(cfg, env, start, cur);
    }
  }

  /** `t` returns after `n` denied polling rounds and a satisfied one. */
  ghost predicate ReturnsAfter(t: Trace, n: nat, p: nat) {
    t.outcome == Returned && Count(t.log) == Expected(p, n)
  }

  /** A polling round that returns is the whole loop. */
  lemma LastRoundReturns(cfg: WatchConfig, env: Env, start: int, cur: Cursor, fuel: nat)
    requires env.now(cur.readings) - start < cfg.timeout
    requires !env.interrupt(cur.sleeps)
    requires !cfg.condition(cur.evals).denied
    requires fuel > 0
    ensures ReturnsAfter(Continue(cfg, env, start, Polling, cur, fuel), 0, cfg.pollingInterval)
  {
    ContinueReturns(cfg, env, start, cur, fuel);
    LastRoundCount(cfg.pollingInterval, env.now(cur.readings) - start, cfg.condition(cur.evals));
  }

  /** Counting a trace that is a log in front of another trace. */
  lemma CountPrefixed(t: Trace, round: seq<Event>, rest: Trace)
    requires t == Prefixed(round, rest)
    ensures t.outcome == rest.outcome
    ensures Count(t.log) == Plus(Count(round), Count(rest.log))
  {
    CountConcat(round, rest.log);
  }

  /** A denied round whose second check passed, in front of a trace: the trace's outcome,
      and its counts plus one evaluation, two checks and a sleep when the interval is
      positive. */
  lemma DeniedRoundPrefixed(t: Trace, rest: Trace, round: seq<Event>, p: nat, e: int, r: ConditionResult, e2: int)
    requires round == Round(p, e, r, [Check(e2, false)])
    requires t == Prefixed(round, rest)
    ensures t.outcome == rest.outcome
    ensures Count(t.log) == Plus(Tally(1, 2, PerRound(p), 0), Count(rest.log))
  {
    DeniedRoundCount(p, e, r, e2);
    CountPrefixed(t, round, rest);
  }

  /** A denied polling round in front of the rest of the loop adds one evaluation, two
      checks and a sleep when the interval is positive, and keeps the outcome. */
  lemma RepeatedRoundCount(cfg: WatchConfig, env: Env, start: int, cur: Cursor, fuel: nat)
    requires env.now(cur.readings) - start < cfg.timeout
    requires env.now(cur.readings + 1) - start < cfg.timeout
    requires !env.interrupt(cur.sleeps)
    requires cfg.condition(cur.evals).denied && cfg.condition(cur.evals).awaiting.None?
    requires fuel > 0
    ensures var t := Continue(cfg, env, start, Polling, cur, fuel);
            var rest := Continue(cfg, env, start, Polling, NextPoll(cfg, cur), fuel - 1);
            && t.outcome == rest.outcome
            && Count(t.log) == Plus(Tally(1, 2, PerRound(cfg.pollingInterval), 0), Count(rest.log))
  {
    var t := Continue(cfg, env, start, Polling, cur, fuel);
    var rest := Continue(cfg, env, start, Polling, NextPoll(cfg, cur), fuel - 1);
    var round := Round(cfg.pollingInterval, env.now(cur.readings) - start, cfg.condition(cur.evals),
                       [Check(env.now(cur.readings + 1) - start, false)]);
    ContinueRepeats(cfg, env, start, cur, fuel);
    DeniedRoundPrefixed(t, rest, round, cfg.pollingInterval, env.now(cur.readings) - start,
                        cfg.condition(cur.evals), env.now(cur.readings + 1) - start);
  }

  /** One more denied round in front of a trace that returns after `n` rounds. */
  lemma ReturnsAfterOneMore(t: Trace, rest: Trace, n: nat, p: nat)
    requires t.outcome == rest.outcome
    requires Count(t.log) == Plus(Tally(1, 2, PerRound(p), 0), Count(rest.log))
    requires ReturnsAfter(rest, n, p)
    ensures ReturnsAfter(t, n + 1, p)
  {
  }

  /** A denied polling round whose checks pass, in front of a loop that returns after
      `n` rounds: the whole loop returns after `n + 1`. */
  lemma RoundThenReturns(cfg: WatchConfig, env: Env, start: int, cur: Cursor, n: nat, fuel: nat)
    requires env.now(cur.readings) - start < cfg.timeout
    requires env.now(cur.readings + 1) - start < cfg.timeout
    requires !env.interrupt(cur.sleeps)
    requires cfg.condition(cur.evals).denied && cfg.condition(cur.evals).awaiting.None?
    requires fuel > 0
    requires ReturnsAfter(Continue(cfg, env, start, Polling, NextPoll(cfg, cur), fuel - 1), n, cfg.pollingInterval)
    ensures ReturnsAfter(Continue(cfg, env, start, Polling, cur, fuel), n + 1, cfg.pollingInterval)
  {
    RepeatedRoundCount(cfg, env, start, cur, fuel);
    ReturnsAfterOneMore(Continue(cfg, env, start, Polling, cur, fuel),
                        Continue(cfg, env, start, Polling, NextPoll(cfg, cur), fuel - 1), n, cfg.pollingInterval);
  }

  /** Poll mode when the next `n` evaluations are denied without a notifier and the one
      after is satisfied, none of the `2n + 1` clock readings these rounds take reaches
      the deadline and none of their sleeps is interrupted: the loop returns after `n + 1`
      polling rounds, each with its sleep when the interval is positive, and never
      awaits. */
  lemma {:induction false} PollingReturnsFrom(cfg: WatchConfig, env: Env, start: int, cur: Cursor, n: nat, fuel: nat)
    requires forall j: nat :: cur.evals <= j < cur.evals + n ==> cfg.condition(j).denied && cfg.condition(j).awaiting.None?
    requires !cfg.condition(cur.evals + n).denied
    requires forall j: nat :: cur.readings <= j <= cur.readings + 2 * n ==> env.now(j) - start < cfg.timeout
    requires forall j: nat :: cur.sleeps <= j <= cur.sleeps + n ==> !env.interrupt(j)
    requires fuel > n
    ensures ReturnsAfter(Continue(cfg, env, start, Polling, cur, fuel), n, cfg.pollingInterval)
    decreases n, 1
  {
    if n == 0 {
      assert env.now(cur.readings) - start < cfg.timeout;
      assert !env.interrupt(cur.sleeps);
      LastRoundReturns(cfg, env, start, cur, fuel);
    } else {
      PollingRepeatsFrom(cfg, env, start, cur, n, fuel);
    }
  }

  /** The inductive step of `PollingReturnsFrom`: a first round that is denied. */
  lemma {:induction false} PollingRepeatsFrom(cfg: WatchConfig, env: Env, start: int, cur: Cursor, n: nat, fuel: nat)
    requires n > 0
    requires forall j: nat :: cur.evals <= j < cur.evals + n ==> cfg.condition(j).denied && cfg.condition(j).awaiting.None?
    requires !cfg.condition(cur.evals + n).denied
    requires forall j: nat :: cur.readings <= j <= cur.readings + 2 * n ==> env.now(j) - start < cfg.timeout
    requires forall j: nat :: cur.sleeps <= j <= cur.sleeps + n ==> !env.interrupt(j)
    requires fuel > n
    ensures ReturnsAfter(Continue(cfg, env, start, Polling, cur, fuel), n, cfg.pollingInterval)
    decreases n, 0
  {
    DeniedRoundPremises(cfg, env, start, cur, n);
    PollingReturnsFrom(cfg, env, start, NextPoll(cfg, cur), n - 1, fuel - 1);
    RoundThenReturns(cfg, env, start, cur, n - 1, fuel);
  }

  /** When the first of `n > 0` evaluations is denied, the round's own premises hold
      and the next round starts with one denial fewer, two readings later and past this
      round's sleep. */
  lemma DeniedRoundPremises(cfg: WatchConfig, env: Env, start: int, cur: Cursor, n: nat)
    requires n > 0
    requires forall j: nat :: cur.evals <= j < cur.evals + n ==> cfg.condition(j).denied && cfg.condition(j).awaiting.None?
    requires !cfg.condition(cur.evals + n).denied
    requires forall j: nat :: cur.readings <= j <= cur.readings + 2 * n ==> env.now(j) - start < cfg.timeout
    requires forall j: nat :: cur.sleeps <= j <= cur.sleeps + n ==> !env.interrupt(j)
    ensures env.now(cur.readings) - start < cfg.timeout
    ensures env.now(cur.readings + 1) - start < cfg.timeout
    ensures !env.interrupt(cur.sleeps)
    ensures cfg.condition(cur.evals).denied && cfg.condition(cur.evals).awaiting.None?
    ensures var c := NextPoll(cfg, cur);
            && (forall j: nat :: c.evals <= j < c.evals + (n - 1) ==> cfg.condition(j).denied && cfg.condition(j).awaiting.None?)
            && !cfg.condition(c.evals + (n - 1)).denied
            && (forall j: nat :: c.readings <= j <= c.readings + 2 * (n - 1) ==> env.now(j) - start < cfg.timeout)
            && (forall j: nat :: c.sleeps <= j <= c.sleeps + (n - 1) ==> !env.interrupt(j))
  {
  }

  /** A condition denied without a notifier on its first `k` evaluations and satisfied on
      the next, no check of the run reaching the deadline (its first `2k` clock readings
      stay below it) and none of its `k` sleeps interrupted: `start` returns
      after exactly `k + 1` evaluations, `k` polling rounds (each with a sleep when the
      interval is positive, with two checks each but the first round's single check
      before the final evaluation) and no await. */
  lemma PollingReturnsAfterDenials(cfg: WatchConfig, env: Env, k: nat, fuel: nat)
    requires forall j: nat :: j < k ==> cfg.condition(j).denied && cfg.condition(j).awaiting.None?
    requires !cfg.condition(k).denied
    requires forall r: nat :: r < 2 * k ==> env.now(r) - env.now(0) < cfg.timeout
    requires forall j: nat :: j < k ==> !env.interrupt(j)
    requires fuel >= k
    ensures Run(cfg, env, fuel).outcome == Returned
    ensures Count(Run(cfg, env, fuel).log)
              == Tally(k + 1, if k == 0 then 0 else 2 * k - 1, if cfg.pollingInterval > 0 then k else 0, 0)
  {
    var r := cfg.condition(0);
    if k > 0 {
      assert r.denied && r.awaiting.None?;
      var cur := Cursor(1, 1, 0, 0);
      var c := Continue(cfg, env, env.now(0), Polling, cur, fuel);
      assert c.outcome == Returned
        && Count(c.log) == Tally(k, 2 * k - 1, if cfg.pollingInterval > 0 then k else 0, 0) by {
        PollingReturnsFrom(cfg, env, env.now(0), cur, k - 1, fuel);
      }
      assert Run(cfg, env, fuel) == Prefixed([Eval(r)], c);
      CountCons(Eval(r), c.log);
    }
  }

  /** A clock that keeps advancing, 10 ms per reading, with the default timeout and
      interval: a condition denied once and then satisfied returns after two evaluations,
      one check and one sleep, although later readings pass the deadline. */
  lemma SteadyClockReturns(fuel: nat)
    requires fuel >= 1
    ensures var cfg := WatchConfig(j => FromDenied(j < 1), DefaultTimeout, DefaultPollingInterval);
            var env := Env(r => 10 * r, _ => false, _ => false);
            && Run(cfg, env, fuel).outcome == Returned
            && Count(Run(cfg, env, fuel).log) == Tally(2, 1, 1, 0)
  {
    var cfg := WatchConfig(j => FromDenied(j < 1), DefaultTimeout, DefaultPollingInterval);
    var env := Env(r => 10 * r, _ => false, _ => false);
    assert cfg.condition(0) == FromDenied(true) && cfg.condition(1) == FromDenied(false);
    PollingReturnsAfterDenials(cfg, env, 1, fuel);
  }
}
