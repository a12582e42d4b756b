/** What a run's log says about the inputs it consumed: its checks and awaits record the
    successive clock readings, its evaluations the successive answers of the condition,
    its awaits the successive answers of the notifiers and its sleeps the successive
    interruptions, each in the order they were consulted. */
module WatchingInputs {
  import opened Watching
  import WatchingProperties

  /** The inputs a log records, by kind, in order. */
  datatype Inputs = Inputs(elapsed: seq<int>, results: seq<ConditionResult>, signals: seq<bool>, interruptions: seq<bool>)

  /** Kind-by-kind concatenation. */
  function Join(a: Inputs, b: Inputs): Inputs {
    Inputs(a.elapsed + b.elapsed, a.results + b.results, a.signals + b.signals, a.interruptions + b.interruptions)
  }

  /** The inputs one event records. */
  function Of(e: Event): Inputs {
    match e
    case Eval(r) => Inputs([], [r], [], [])
    case Check(elapsed, _) => Inputs([elapsed], [], [], [])
    case Sleep(_, interrupted) => Inputs([], [], [], [interrupted])
    case Await(_, elapsed, _, signaled) => Inputs([elapsed], [], [signaled], [])
  }

  /** The inputs `log` records. */
  function Recorded(log: seq<Event>): Inputs {
    if log == [] then Inputs([], [], [], []) else Join(Of(log[0]), Recorded(log[1..]))
  }

  /** Joining is associative. */
  lemma JoinAssoc(a: Inputs, b: Inputs, c: Inputs)
    ensures Join(Join(a, b), c) == Join(a, Join(b, c))
  {
    assert (a.elapsed + b.elapsed) + c.elapsed == a.elapsed + (b.elapsed + c.elapsed);
    assert (a.results + b.results) + c.results == a.results + (b.results + c.results);
    assert (a.signals + b.signals) + c.signals == a.signals + (b.signals + c.signals);
    assert (a.interruptions + b.interruptions) + c.interruptions == a.interruptions + (b.interruptions + c.interruptions);
  }

  /** Recording is additive over concatenation. */
  lemma {:induction false} RecordedConcat(a: seq<Event>, b: seq<Event>)
    ensures Recorded(a + b) == Join(Recorded(a), Recorded(b))
    decreases |a|
  {
    if a == [] {
      assert a + b == b;
      var n := Recorded(b);
      assert Join(Inputs([], [], [], []), n) == n by {
        assert [] + n.elapsed == n.elapsed;
        assert [] + n.results == n.results;
        assert [] + n.signals == n.signals;
        assert [] + n.interruptions == n.interruptions;
      }
    } else {
      assert (a + b)[0] == a[0];
      assert (a + b)[1..] == a[1..] + b;
      RecordedConcat(a[1..], b);
      JoinAssoc(Of(a[0]), Recorded(a[1..]), Recorded(b));
    }
  }

  lemma RecordedOne(a: Event)
    ensures Recorded([a]) == Of(a)
  {
    assert [a][1..] == [];
    var n := Of(a);
    assert Join(n, Inputs([], [], [], [])) == n by {
      assert n.elapsed + [] == n.elapsed;
      assert n.results + [] == n.results;
      assert n.signals + [] == n.signals;
      assert n.interruptions + [] == n.interruptions;
    }
  }

  // The inputs each shape of wait step records.

  lemma AwaitUnsignaledRecords(h: Handle, e: int, rest: int, e2: int, x: bool)
    ensures Recorded([Await(h, e, rest, false), Check(e2, x)]) == Inputs([e, e2], [], [false], [])
  {
    var l := [Await(h, e, rest, false), Check(e2, x)];
    assert l[1..] == [Check(e2, x)];
    assert l[1..][1..] == [];
    assert Recorded([Check(e2, x)]) == Inputs([e2], [], [], []);
  }

  lemma AwaitReturnsRecords(h: Handle, e: int, rest: int, r: ConditionResult)
    ensures Recorded([Await(h, e, rest, true), Eval(r)]) == Inputs([e], [r], [true], [])
  {
    var l := [Await(h, e, rest, true), Eval(r)];
    assert l[1..] == [Eval(r)];
    assert l[1..][1..] == [];
    assert Recorded([Eval(r)]) == Inputs([], [r], [], []);
  }

  lemma AwaitSignaledRecords(h: Handle, e: int, rest: int, r: ConditionResult, e2: int, x: bool)
    ensures Recorded([Await(h, e, rest, true), Eval(r), Check(e2, x)]) == Inputs([e, e2], [r], [true], [])
  {
    var l := [Await(h, e, rest, true), Eval(r), Check(e2, x)];
    assert l[1..] == [Eval(r), Check(e2, x)];
    assert l[1..][1..] == [Check(e2, x)];
    assert l[1..][1..][1..] == [];
    assert Recorded([Check(e2, x)]) == Inputs([e2], [], [], []);
    assert Recorded([Eval(r), Check(e2, x)]) == Inputs([e2], [r], [], []);
  }

  lemma PollTimesOutRecords(e: int)
    ensures Recorded([Check(e, true)]) == Inputs([e], [], [], [])
  {
    assert [Check(e, true)][1..] == [];
  }

  lemma PollInterruptedRecords(e: int, p: nat)
    ensures Recorded([Check(e, false), Sleep(p, true)]) == Inputs([e], [], [], [true])
  {
    var l := [Check(e, false), Sleep(p, true)];
    assert l[1..] == [Sleep(p, true)];
    assert l[1..][1..] == [];
    assert Recorded([Sleep(p, true)]) == Inputs([], [], [], [true]);
  }

  lemma PollUnsleptReturnsRecords(e: int, r: ConditionResult)
    ensures Recorded([Check(e, false), Eval(r)]) == Inputs([e], [r], [], [])
  {
    var l := [Check(e, false), Eval(r)];
    assert l[1..] == [Eval(r)];
    assert l[1..][1..] == [];
    assert Recorded([Eval(r)]) == Inputs([], [r], [], []);
  }

  lemma PollSleptReturnsRecords(e: int, p: nat, r: ConditionResult)
    ensures Recorded([Check(e, false), Sleep(p, false), Eval(r)]) == Inputs([e], [r], [], [false])
  {
    var l := [Check(e, false), Sleep(p, false), Eval(r)];
    assert l[1..] == [Sleep(p, false), Eval(r)];
    assert l[1..][1..] == [Eval(r)];
    assert l[1..][1..][1..] == [];
    assert Recorded([Eval(r)]) == Inputs([], [r], [], []);
    assert Recorded([Sleep(p, false), Eval(r)]) == Inputs([], [r], [], [false]);
  }

  lemma PollUnsleptRecords(e: int, r: ConditionResult, e2: int, x: bool)
    ensures Recorded([Check(e, false), Eval(r), Check(e2, x)]) == Inputs([e, e2], [r], [], [])
  {
    var l := [Check(e, false), Eval(r), Check(e2, x)];
    assert l[1..] == [Eval(r), Check(e2, x)];
    assert l[1..][1..] == [Check(e2, x)];
    assert l[1..][1..][1..] == [];
    assert Recorded([Check(e2, x)]) == Inputs([e2], [], [], []);
    assert Recorded([Eval(r), Check(e2, x)]) == Inputs([e2], [r], [], []);
  }

  lemma PollSleptRecords(e: int, p: nat, r: ConditionResult, e2: int, x: bool)
    ensures Recorded([Check(e, false), Sleep(p, false), Eval(r), Check(e2, x)]) == Inputs([e, e2], [r], [], [false])
  {
    var l := [Check(e, false), Sleep(p, false), Eval(r), Check(e2, x)];
    assert l[1..] == [Sleep(p, false), Eval(r), Check(e2, x)];
    assert l[1..][1..] == [Eval(r), Check(e2, x)];
    assert l[1..][1..][1..] == [Check(e2, x)];
    assert l[1..][1..][1..][1..] == [];
    assert Recorded([Check(e2, x)]) == Inputs([e2], [], [], []);
    assert Recorded([Eval(r), Check(e2, x)]) == Inputs([e2], [r], [], []);
    assert Recorded([Sleep(p, false), Eval(r), Check(e2, x)]) == Inputs([e2], [r], [], [false]);
  }

  /** `n` lists, in order, the inputs consulted from the cursor `cur` on: clock readings
      (as times elapsed since `start`), condition answers, notifier answers and sleep
      interruptions. */
  ghost predicate ReadsFrom(cfg: WatchConfig, env: Env, start: int, cur: Cursor, n: Inputs) {
    && (forall i | 0 <= i < |n.elapsed| :: n.elapsed[i] == env.now(cur.readings + i) - start)
    && (forall i | 0 <= i < |n.results| :: n.results[i] == cfg.condition(cur.evals + i))
    && (forall i | 0 <= i < |n.signals| :: n.signals[i] == env.signal(cur.awaits + i))
    && (forall i | 0 <= i < |n.interruptions| :: n.interruptions[i] == env.interrupt(cur.sleeps + i))
  }

  /** `n` consumed exactly the inputs between the cursors `cur` and `next`. */
  predicate Spans(cur: Cursor, n: Inputs, next: Cursor) {
    && cur.readings + |n.elapsed| == next.readings
    && cur.evals + |n.results| == next.evals
    && cur.awaits + |n.signals| == next.awaits
    && cur.sleeps + |n.interruptions| == next.sleeps
  }

  /** Inputs read from `cur` up to `next`, then from `next` on, were read from `cur` on. */
  lemma JoinReads(cfg: WatchConfig, env: Env, start: int, cur: Cursor, a: Inputs, next: Cursor, b: Inputs)
    requires ReadsFrom(cfg, env, start, cur, a) && Spans(cur, a, next)
    requires ReadsFrom(cfg, env, start, next, b)
    ensures ReadsFrom(cfg, env, start, cur, Join(a, b))
  {
    var n := Join(a, b);
    forall i | 0 <= i < |n.elapsed|
      ensures n.elapsed[i] == env.now(cur.readings + i) - start
    {
      if i >= |a.elapsed| {
        assert n.elapsed[i] == b.elapsed[i - |a.elapsed|];
      }
    }
    forall i | 0 <= i < |n.results|
      ensures n.results[i] == cfg.condition(cur.evals + i)
    {
      if i >= |a.results| {
        assert n.results[i] == b.results[i - |a.results|];
      }
    }
    forall i | 0 <= i < |n.signals|
      ensures n.signals[i] == env.signal(cur.awaits + i)
    {
      if i >= |a.signals| {
        assert n.signals[i] == b.signals[i - |a.signals|];
      }
    }
    forall i | 0 <= i < |n.interruptions|
      ensures n.interruptions[i] == env.interrupt(cur.sleeps + i)
    {
      if i >= |a.interruptions| {
        assert n.interruptions[i] == b.interruptions[i - |a.interruptions|];
      }
    }
  }

  /** Inputs as short as one step's are read from `cur` on when each element is. */
  lemma ReadsShort(cfg: WatchConfig, env: Env, start: int, cur: Cursor, n: Inputs)
    requires |n.elapsed| <= 2 && |n.results| <= 1 && |n.signals| <= 1 && |n.interruptions| <= 1
    requires |n.elapsed| > 0 ==> n.elapsed[0] == env.now(cur.readings) - start
    requires |n.elapsed| > 1 ==> n.elapsed[1] == env.now(cur.readings + 1) - start
    requires |n.results| > 0 ==> n.results[0] == cfg.condition(cur.evals)
    requires |n.signals| > 0 ==> n.signals[0] == env.signal(cur.awaits)
    requires |n.interruptions| > 0 ==> n.interruptions[0] == env.interrupt(cur.sleeps)
    ensures ReadsFrom(cfg, env, start, cur, n)
  {
  }

  /** A step in await mode records the inputs it consumed, in order. */
  lemma AwaitStepReads(cfg: WatchConfig, env: Env, start: int, h: Handle, cur: Cursor)
    ensures var s := AwaitStep(cfg, env, start, h, cur);
      && ReadsFrom(cfg, env, start, cur, Recorded(s.events))
      && (s.Next? ==> Spans(cur, Recorded(s.events), s.cursor))
  {
    var e := env.now(cur.readings) - start;
    var e2 := env.now(cur.readings + 1) - start;
    var r := cfg.condition(cur.evals);
    var x := e2 >= cfg.timeout;
    if !env.signal(cur.awaits) {
      assert ReadsFrom(cfg, env, start, cur, Inputs([e, e2], [], [false], [])) by {
        ReadsShort(cfg, env, start, cur, Inputs([e, e2], [], [false], []));
      }
      AwaitUnsignaledRecords(h, e, cfg.timeout - e, e2, x);
      assert AwaitStep(cfg, env, start, h, cur).events == [Await(h, e, cfg.timeout - e, false), Check(e2, x)];
    } else if r.denied {
      assert ReadsFrom(cfg, env, start, cur, Inputs([e, e2], [r], [true], [])) by {
        ReadsShort(cfg, env, start, cur, Inputs([e, e2], [r], [true], []));
      }
      AwaitSignaledRecords(h, e, cfg.timeout - e, r, e2, x);
      assert AwaitStep(cfg, env, start, h, cur).events == [Await(h, e, cfg.timeout - e, true), Eval(r), Check(e2, x)];
    } else {
      assert ReadsFrom(cfg, env, start, cur, Inputs([e], [r], [true], [])) by {
        ReadsShort(cfg, env, start, cur, Inputs([e], [r], [true], []));
      }
      AwaitReturnsRecords(h, e, cfg.timeout - e, r);
      assert AwaitStep(cfg, env, start, h, cur).events == [Await(h, e, cfg.timeout - e, true), Eval(r)];
    }
  }

  /** A step in poll mode with a positive polling interval records the inputs it
      consumed, in order. */
  lemma PollStepReadsSleeping(cfg: WatchConfig, env: Env, start: int, cur: Cursor)
    requires cfg.pollingInterval > 0
    ensures var s := PollStep(cfg, env, start, cur);
      && ReadsFrom(cfg, env, start, cur, Recorded(s.events))
      && (s.Next? ==> Spans(cur, Recorded(s.events), s.cursor))
  {
    var p := cfg.pollingInterval;
    var e := env.now(cur.readings) - start;
    var e2 := env.now(cur.readings + 1) - start;
    var r := cfg.condition(cur.evals);
    var x := e2 >= cfg.timeout;
    if e >= cfg.timeout {
      assert ReadsFrom(cfg, env, start, cur, Inputs([e], [], [], [])) by {
        ReadsShort(cfg, env, start, cur, Inputs([e], [], [], []));
      }
      PollTimesOutRecords(e);
      assert PollStep(cfg, env, start, cur).events == [Check(e, true)];
    } else if env.interrupt(cur.sleeps) {
      assert ReadsFrom(cfg, env, start, cur, Inputs([e], [], [], [true])) by {
        ReadsShort(cfg, env, start, cur, Inputs([e], [], [], [true]));
      }
      PollInterruptedRecords(e, p);
      assert PollStep(cfg, env, start, cur).events == [Check(e, false), Sleep(p, true)];
    } else if !r.denied {
      assert ReadsFrom(cfg, env, start, cur, Inputs([e], [r], [], [false])) by {
        ReadsShort(cfg, env, start, cur, Inputs([e], [r], [], [false]));
      }
      PollSleptReturnsRecords(e, p, r);
      assert PollStep(cfg, env, start, cur).events == [Check(e, false), Sleep(p, false), Eval(r)];
    } else {
      assert ReadsFrom(cfg, env, start, cur, Inputs([e, e2], [r], [], [false])) by {
        ReadsShort(cfg, env, start, cur, Inputs([e, e2], [r], [], [false]));
      }
      PollSleptRecords(e, p, r, e2, x);
      assert PollStep(cfg, env, start, cur).events == [Check(e, false), Sleep(p, false), Eval(r), Check(e2, x)];
    }
  }

  /** A step in poll mode with a zero polling interval records the inputs it consumed, in
      order. */
  lemma PollStepReadsBusy(cfg: WatchConfig, env: Env, start: int, cur: Cursor)
    requires cfg.pollingInterval == 0
    ensures var s := PollStep(cfg, env, start, cur);
      && ReadsFrom(cfg, env, start, cur, Recorded(s.events))
      && (s.Next? ==> Spans(cur, Recorded(s.events), s.cursor))
  {
    var e := env.now(cur.readings) - start;
    var e2 := env.now(cur.readings + 1) - start;
    var r := cfg.condition(cur.evals);
    var x := e2 >= cfg.timeout;
    if e >= cfg.timeout {
      assert ReadsFrom(cfg, env, start, cur, Inputs([e], [], [], [])) by {
        ReadsShort(cfg, env, start, cur, Inputs([e], [], [], []));
      }
      PollTimesOutRecords(e);
      assert PollStep(cfg, env, start, cur).events == [Check(e, true)];
    } else if !r.denied {
      assert ReadsFrom(cfg, env, start, cur, Inputs([e], [r], [], [])) by {
        ReadsShort(cfg, env, start, cur, Inputs([e], [r], [], []));
      }
      PollUnsleptReturnsRecords(e, r);
      assert PollStep(cfg, env, start, cur).events == [Check(e, false), Eval(r)];
    } else {
      assert ReadsFrom(cfg, env, start, cur, Inputs([e, e2], [r], [], [])) by {
        ReadsShort(cfg, env, start, cur, Inputs([e, e2], [r], [], []));
      }
      PollUnsleptRecords(e, r, e2, x);
      assert PollStep(cfg, env, start, cur).events == [Check(e, false), Eval(r), Check(e2, x)];
    }
  }

  /** A step in poll mode records the inputs it consumed, in order. */
  lemma PollStepReads(cfg: WatchConfig, env: Env, start: int, cur: Cursor)
    ensures var s := PollStep(cfg, env, start, cur);
      && ReadsFrom(cfg, env, start, cur, Recorded(s.events))
      && (s.Next? ==> Spans(cur, Recorded(s.events), s.cursor))
  {
    if cfg.pollingInterval > 0 {
      PollStepReadsSleeping(cfg, env, start, cur);
    } else {
      PollStepReadsBusy(cfg, env, start, cur);
    }
  }

  /** The wait loop entered with the cursor `cur` records, in order, the inputs it
      consumes from `cur` on. */
  lemma {:induction false} ContinueReads(cfg: WatchConfig, env: Env, start: int, mode: Mode, cur: Cursor, fuel: nat)
    ensures ReadsFrom(cfg, env, start, cur, Recorded(Continue(cfg, env, start, mode, cur, fuel).log))
    decreases fuel
  {
    if fuel > 0 {
      var s := Step(cfg, env, start, mode, cur);
      var head := Recorded(s.events);
      assert ReadsFrom(cfg, env, start, cur, head) && (s.Next? ==> Spans(cur, head, s.cursor)) by {
        match mode {
          case Awaiting(h) => AwaitStepReads(cfg, env, start, h, cur);
          case Polling => PollStepReads(cfg, env, start, cur);
        }
      }
      if s.Next? {
        var rest := Continue(cfg, env, start, s.mode, s.cursor, fuel - 1);
        ContinueReads(cfg, env, start, s.mode, s.cursor, fuel - 1);
        assert Continue(cfg, env, start, mode, cur, fuel).log == s.events + rest.log;
        RecordedConcat(s.events, rest.log);
        JoinReads(cfg, env, start, cur, head, s.cursor, Recorded(rest.log));
      }
    }
  }

  /** Read from the first reading after the start time on, in terms of the inputs' own
      indices. */
  lemma ReadsFromStart(cfg: WatchConfig, env: Env, n: Inputs)
    requires ReadsFrom(cfg, env, env.now(0), Cursor(0, 1, 0, 0), n)
    ensures forall i | 0 <= i < |n.elapsed| :: n.elapsed[i] == env.now(i + 1) - env.now(0)
    ensures forall i | 0 <= i < |n.results| :: n.results[i] == cfg.condition(i)
    ensures forall i | 0 <= i < |n.signals| :: n.signals[i] == env.signal(i)
    ensures forall i | 0 <= i < |n.interruptions| :: n.interruptions[i] == env.interrupt(i)
  {
    var cur := Cursor(0, 1, 0, 0);
    forall i | 0 <= i < |n.elapsed|
      ensures n.elapsed[i] == env.now(i + 1) - env.now(0)
    {
      assert n.elapsed[i] == env.now(cur.readings + i) - env.now(0);
      assert cur.readings + i == i + 1;
    }
    forall i | 0 <= i < |n.results|
      ensures n.results[i] == cfg.condition(i)
    {
      assert n.results[i] == cfg.condition(cur.evals + i);
    }
    forall i | 0 <= i < |n.signals|
      ensures n.signals[i] == env.signal(i)
    {
      assert n.signals[i] == env.signal(cur.awaits + i);
    }
    forall i | 0 <= i < |n.interruptions|
      ensures n.interruptions[i] == env.interrupt(i)
    {
      assert n.interruptions[i] == env.interrupt(cur.sleeps + i);
    }
  }

  /** Every input `start` consults is recorded where and as it was consulted: the i-th
      check or await records `now(i + 1) - now(0)` (reading 0 is the start time), the
      i-th evaluation records the i-th answer of `accept()`, the i-th await the i-th
      notifier answer and the i-th sleep the i-th interruption. */
  lemma RunRecordsInputs(cfg: WatchConfig, env: Env, fuel: nat)
    ensures var n := Recorded(Run(cfg, env, fuel).log);
      && (forall i | 0 <= i < |n.elapsed| :: n.elapsed[i] == env.now(i + 1) - env.now(0))
      && (forall i | 0 <= i < |n.results| :: n.results[i] == cfg.condition(i))
      && (forall i | 0 <= i < |n.signals| :: n.signals[i] == env.signal(i))
      && (forall i | 0 <= i < |n.interruptions| :: n.interruptions[i] == env.interrupt(i))
  {
    var r := cfg.condition(0);
    var origin := Cursor(0, 1, 0, 0);
    var first := Cursor(1, 1, 0, 0);
    var log := Run(cfg, env, fuel).log;
    var head := Inputs([], [r], [], []);
    assert ReadsFrom(cfg, env, env.now(0), origin, Recorded(log)) by {
      RecordedOne(Eval(r));
      ReadsShort(cfg, env, env.now(0), origin, head);
      if r.denied {
        var c := Continue(cfg, env, env.now(0), NextMode(r), first, fuel);
        ContinueReads(cfg, env, env.now(0), NextMode(r), first, fuel);
        assert log == [Eval(r)] + c.log;
        RecordedConcat([Eval(r)], c.log);
        JoinReads(cfg, env, env.now(0), origin, head, first, Recorded(c.log));
      } else {
        assert log == [Eval(r)];
      }
    }
    ReadsFromStart(cfg, env, Recorded(log));
  }

  /** The inputs recorded before the event at index `i`, then by that event, then after
      it. */
  lemma RecordedAround(log: seq<Event>, i: nat)
    requires i < |log|
    ensures Recorded(log) == Join(Recorded(log[..i]), Join(Of(log[i]), Recorded(log[i + 1..])))
  {
    assert log == log[..i] + log[i..];
    RecordedConcat(log[..i], log[i..]);
    assert log[i..] == [log[i]] + log[i + 1..];
    RecordedConcat([log[i]], log[i + 1..]);
    RecordedOne(log[i]);
  }

  /** Each event of a run records the input consulted at its own position: a check or an
      await taken after `k` earlier clock readings records `now(k + 1) - now(0)`, an
      evaluation after `k` earlier ones the answer `condition(k)`, an await after `k`
      earlier ones the answer `signal(k)`, a sleep after `k` earlier ones `interrupt(k)`. */
  lemma EventsRecordFreshInputs(cfg: WatchConfig, env: Env, fuel: nat)
    ensures var t := Run(cfg, env, fuel);
      forall i | 0 <= i < |t.log| ::
        var before := Recorded(t.log[..i]);
        && (t.log[i].Check? || t.log[i].Await? ==> t.log[i].elapsed == env.now(|before.elapsed| + 1) - env.now(0))
        && (t.log[i].Eval? ==> t.log[i].result == cfg.condition(|before.results|))
        && (t.log[i].Await? ==> t.log[i].signaled == env.signal(|before.signals|))
        && (t.log[i].Sleep? ==> t.log[i].interrupted == env.interrupt(|before.interruptions|))
  {
    var t := Run(cfg, env, fuel);
    var n := Recorded(t.log);
    RunRecordsInputs(cfg, env, fuel);
    forall i | 0 <= i < |t.log|
      ensures var before := Recorded(t.log[..i]);
        && (t.log[i].Check? || t.log[i].Await? ==> t.log[i].elapsed == env.now(|before.elapsed| + 1) - env.now(0))
        && (t.log[i].Eval? ==> t.log[i].result == cfg.condition(|before.results|))
        && (t.log[i].Await? ==> t.log[i].signaled == env.signal(|before.signals|))
        && (t.log[i].Sleep? ==> t.log[i].interrupted == env.interrupt(|before.interruptions|))
    {
      var before := Recorded(t.log[..i]);
      var here := Of(t.log[i]);
      RecordedAround(t.log, i);
      match t.log[i] {
        case Check(_, _) =>
          assert n.elapsed[|before.elapsed|] == here.elapsed[0];
        case Await(_, _, _, _) =>
          assert n.elapsed[|before.elapsed|] == here.elapsed[0];
          assert n.signals[|before.signals|] == here.signals[0];
        case Eval(_) =>
          assert n.results[|before.results|] == here.results[0];
        case Sleep(_, _) =>
          assert n.interruptions[|before.interruptions|] == here.interruptions[0];
      }
    }
  }

  /** Every await asks for the rest of the timeout measured on a fresh clock reading: the
      await taken after `k` earlier clock readings asks for `timeout - (now(k + 1) -
      now(0))`, reading 0 being the start time. */
  lemma AwaitsAskFreshRemainingTime(cfg: WatchConfig, env: Env, fuel: nat)
    ensures var t := Run(cfg, env, fuel);
      forall i | 0 <= i < |t.log| && t.log[i].Await? ::
        t.log[i].rest == cfg.timeout - (env.now(|Recorded(t.log[..i]).elapsed| + 1) - env.now(0))
  {
    var t := Run(cfg, env, fuel);
    EventsRecordFreshInputs(cfg, env, fuel);
    WatchingProperties.AwaitsRequestRemainingTime(cfg, env, fuel);
    forall i | 0 <= i < |t.log| && t.log[i].Await?
      ensures t.log[i].rest == cfg.timeout - (env.now(|Recorded(t.log[..i]).elapsed| + 1) - env.now(0))
    {
      assert t.log[i].rest == cfg.timeout - t.log[i].elapsed;
    }
  }
}
