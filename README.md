# Watcher: a blocking wait on a condition, with a timeout

This project models `uapi.common.Watcher` in Dafny. The watcher blocks its caller until a
caller-supplied condition is satisfied or a timeout elapses. `start()` evaluates the
condition once. While the result is denied, it alternates between two modes:

- **await mode**: block on the notifier (`IAwaiting`) that the last result carries, for the
  rest of the timeout;
- **poll mode**: sleep for the polling interval and re-evaluate.

A deadline check (`check`) runs before every sleep, and before every await except one
entered directly from the first evaluation.

Files:

- `wrappers.dfy`: `Option` (a Java `null` is `None`) and `Result` (a value or the error
  raised).
- `watching.dfy` holds the model itself:
  - `ConditionResult` and its two constructors, `FromDenied` and `FromNotifier`;
  - the deadline check `CheckDeadline`;
  - a reference semantics of `start`, built the way the source builds it. `AwaitStep` is
    the body of `doAwait` and `PollStep` the body of `doPolling`. `Continue` is their
    mutual tail recursion and `Run` is `start`;
  - the class `Watcher`. It has the mutable timeout and polling interval, the fluent
    setters `Timeout` and `PollingTime`, and the imperative `DoAwait`, `DoPolling` and
    `Start`. `Start` runs the recursion as one loop over the mode and is proved to produce
    exactly what `Run` produces.
- `properties.dfy`: ordering properties of every run, stated over its event log.
- `inputs.dfy`: what a run's log says about the inputs it consumed. Each check and await
  records a fresh clock reading, each evaluation the next answer of `accept()`, and so on,
  in the order they were consulted.
- `liveness.dfy`:
  - termination when the clock advances;
  - the timeout for a condition that is never satisfied;
  - exact event counts for a condition satisfied after `k` denials in poll mode.

The environment is made of inputs, each indexed by how often it has been consulted:

- the `k`-th answer of `accept()`;
- the `k`-th clock reading;
- the `k`-th answer of `await`;
- whether the `k`-th sleep was interrupted.

Every interaction is recorded, in order, as an event: `Eval`, `Check`, `Sleep` or
`Await`. Times are natural-number milliseconds. The defaults are 5000 ms (`"5s"`) and
100 ms (`"100ms"`).

Only an interrupted `Thread.sleep` is caught and rethrown, wrapped in a `GeneralException`
(Watcher.java:92-96); the model calls that outcome `Interrupted`. `await` has no such handling: the model only takes its answer, whether
it was signaled.

## Model

| member | source | states |
|---|---|---|
| Watching.FromDenied | uapi.common/src/main/java/uapi/common/Watcher.java:127-130 | A result built from a boolean has exactly that denial and no notifier, so it is never "satisfied with a notifier". |
| Watching.FromNotifier | uapi.common/src/main/java/uapi/common/Watcher.java:132-136 | A null notifier is rejected with the invalid-argument error for `"notified"`. Otherwise the result is denied and carries exactly that notifier. |
| Watching.CheckDeadline | uapi.common/src/main/java/uapi/common/Watcher.java:110-115 | The check raises the timeout error exactly when `now - startTime >= timeout`, and does nothing otherwise. Every check of `AwaitStep`, `PollStep`, `DoAwait` and `DoPolling` is this one. |
| Watching.AwaitStep | uapi.common/src/main/java/uapi/common/Watcher.java:71-87 | A step in await mode begins by awaiting the given notifier, with the elapsed time read from a fresh clock reading (`now(cur.readings) - start`). It returns only if the condition evaluated next is satisfied, and otherwise it can only time out. If it goes on, its last event is a passed check, and it has used exactly two clock readings, the second one for that check. |
| Watching.PollStep | uapi.common/src/main/java/uapi/common/Watcher.java:89-108 | A step in poll mode begins with a check of a fresh clock reading (`now(cur.readings) - start`). It returns only if the condition evaluated next is satisfied. It raises the interruption only if its sleep was interrupted, and otherwise can only time out. If it goes on, it ended with a second check that passed, after at least three events, and used exactly two clock readings, the second one for that check. |
| Watching.Step | uapi.common/src/main/java/uapi/common/Watcher.java:64-68 | A step begins as its mode demands: an await on the handle, or a check in poll mode. Its first event records the reading at the cursor and, if it goes on, its last a passed check of the next reading. Its outcomes are the step outcomes above. |
| Watching.Continue | uapi.common/src/main/java/uapi/common/Watcher.java:71-108 | The mutual recursion performs an event exactly when it may take a step. Its first event is the one its mode begins with. |
| Watching.Run | uapi.common/src/main/java/uapi/common/Watcher.java:58-69 | `start` always begins with one evaluation of the condition. If it is satisfied, that evaluation is the whole log and the run returns. Otherwise the run goes on exactly when it may take a wait step, and its next event is the one the result asks for: an await on the result's notifier, or a check when it carries none. |
| Watching.Watcher.constructor | uapi.common/src/main/java/uapi/common/Watcher.java:28-34 | A new watcher holds the given condition, a timeout of 5000 ms and a polling interval of 100 ms. |
| Watching.Watcher.On | uapi.common/src/main/java/uapi/common/Watcher.java:22-34 | A null condition is rejected with the invalid-argument error for `"condition"`. Otherwise a fresh watcher is returned, with that condition and the default durations. |
| Watching.Watcher.Timeout | uapi.common/src/main/java/uapi/common/Watcher.java:41-45 | A null timeout is rejected with the error for `"timeout"` and changes nothing. Otherwise the timeout is replaced and the same watcher is returned. The polling interval never changes. |
| Watching.Watcher.PollingTime | uapi.common/src/main/java/uapi/common/Watcher.java:52-56 | A null interval is rejected with the error for `"pollingInterval"` and changes nothing. Otherwise the interval is replaced and the same watcher is returned. The timeout never changes. |
| Watching.Watcher.DoAwait | uapi.common/src/main/java/uapi/common/Watcher.java:71-87 | The imperative await step does exactly what `AwaitStep` does: the same events, the same next mode and the same outcome, for every input. |
| Watching.Watcher.DoPolling | uapi.common/src/main/java/uapi/common/Watcher.java:89-108 | The imperative poll step does exactly what `PollStep` does, for every input. |
| Watching.Watcher.Start | uapi.common/src/main/java/uapi/common/Watcher.java:58-69 | The loop yields exactly the outcome and log of the reference semantics, and the log starts with the first evaluation. Fast path: a satisfied first evaluation returns after that one evaluation, with no check, sleep or await, whatever the timeout. |
| WatchingProperties.ChecksDecideTimeout | uapi.common/src/main/java/uapi/common/Watcher.java:110-115 | In every run, a check expires exactly when the elapsed time has reached the timeout. An expired check is the last event, and the run raises the timeout error. |
| WatchingProperties.SleepsFollowPassedChecks | uapi.common/src/main/java/uapi/common/Watcher.java:89-97 | Every sleep lasts exactly the polling interval, which is then positive, and comes right after a passed check. An interrupted sleep ends the run with the interruption; any other sleep is followed by an evaluation. An evaluation right after a check means the interval is 0. |
| WatchingProperties.EvaluationsDecide | uapi.common/src/main/java/uapi/common/Watcher.java:75-102 | A satisfied evaluation is the last event, and the run returns. Every denied re-evaluation is followed by a check before anything else. |
| WatchingProperties.NextModeFollowsResult | uapi.common/src/main/java/uapi/common/Watcher.java:64-107 | After a denied evaluation, the next wait step awaits the result's notifier if it carries one, and polls otherwise. The first evaluation leads straight into that step. Later evaluations lead into it after their check. |
| WatchingProperties.AwaitsRequestRemainingTime | uapi.common/src/main/java/uapi/common/Watcher.java:71-86 | Every await asks for `timeout` minus the elapsed time it records (tied to the clock by `AwaitsAskFreshRemainingTime`). A signaled await is followed by a re-evaluation. An unsignaled one is followed by a check without re-evaluation and, if that check passes, by poll mode. |
| WatchingProperties.OutcomeIsLastEvent | uapi.common/src/main/java/uapi/common/Watcher.java:58-115 | `start` returns exactly when its last event is a satisfied evaluation. It times out exactly when its last event is an expired check, and raises the interruption exactly when its last event is an interrupted sleep. It never raises an invalid-argument error. |
| WatchingInputs.RunRecordsInputs | uapi.common/src/main/java/uapi/common/Watcher.java:58-115 | The log records every input `start` consults, in order, from the first on. The i-th recorded elapsed time is `now(i + 1) - now(0)`, measured from the start reading. The i-th evaluation carries the i-th answer of `accept()`, the i-th await the i-th `await` answer, and the i-th sleep the i-th interruption flag. |
| WatchingInputs.EventsRecordFreshInputs | uapi.common/src/main/java/uapi/common/Watcher.java:58-115 | Each event records the input consulted at its own position. A check or await at index `i` records the next clock reading after the ones recorded before `i`. An evaluation records the next answer, an await the next signal, and a sleep the next interruption flag. |
| WatchingInputs.AwaitsAskFreshRemainingTime | uapi.common/src/main/java/uapi/common/Watcher.java:71-73 | Every await asks for `timeout - (now - startTime)`, where `now` is a fresh clock reading: the one after all the readings recorded before it. |
| WatchingLiveness.TerminatesWhenClockAdvances | uapi.common/src/main/java/uapi/common/Watcher.java:58-115 | Suppose the `k`-th clock reading is at least `k` ms after the start reading. Then `start` returns, times out or is interrupted within `max(1, ⌈timeout / 2⌉)` wait steps. |
| WatchingLiveness.TimesOutWhenNeverSatisfied | uapi.common/src/main/java/uapi/common/Watcher.java:58-115 | Suppose the condition is never satisfied, no sleep is interrupted and the `k`-th clock reading is at least `k` ms after the start reading. Then `start` raises the timeout error. |
| WatchingLiveness.PollingReturnsAfterDenials | uapi.common/src/main/java/uapi/common/Watcher.java:89-108 | Suppose the condition is denied without a notifier `k` times, then satisfied, no check of the run reaches the deadline (the first `2k` clock readings stay below it, later ones are unconstrained) and none of its `k` sleeps is interrupted. Then `start` returns after exactly `k + 1` evaluations, `2k - 1` checks (none if `k = 0`) and `k` sleeps (none if the interval is 0), and never awaits. |
| WatchingLiveness.SteadyClockReturns | uapi.common/src/main/java/uapi/common/Watcher.java:89-101 | With the defaults (5000 ms, 100 ms), a clock reading `10·r` ms at its `r`-th reading, which does pass the deadline later, and a condition denied once then satisfied, `start` returns after two evaluations, one check and one sleep. |

## Left out

- `timeout(String)`, `pollingTime(String)` and `IntervalTime.parse` are not modelled. `IntervalTime.java` is not part of this model, so durations are natural-number milliseconds, and the two defaults are the constants 5000 and 100. Negative durations are not modelled.
- `ArgumentChecker.required` and `GeneralException` are foreign helpers. A null argument becomes `None`, and each exception becomes an `Error` value returned in a `Result` or an `Outcome`. Only the argument names are kept, not the message texts.
- `System.currentTimeMillis` and `Thread.sleep` are inputs. The model says nothing about wall-clock accuracy or about how long a sleep really takes.
- `IAwaiting.await` blocks and is signaled from another thread. Only its boolean answer is an input, so concurrency and the notifier's producer side are not modelled.
- `accept()` is modelled by its k-th answer only. Any side effect of the condition is not modelled.
- A notifier is an opaque identity (`Handle`); the watcher only passes it to `await`.
- `isDenied()` and `awaiting()` are the datatype fields `denied` and `awaiting`.
- Java `long` arithmetic is unbounded `int`, so overflow in `timeout - (now - startTime)` is not modelled.
- The recursion's stack depth is not modelled. A long wait in the source could overflow the stack; the model's loop cannot.
- Watching.Continue and Watching.Watcher.Start take a bound `fuel` on the number of wait steps, which the source does not have. A run cut off by that bound ends in `OutOfFuel`. TerminatesWhenClockAdvances shows that with an advancing clock the bound is never reached once `fuel >= 1 && 2 * fuel >= timeout`.
- The condition is a total function from the evaluation index to a result: it never returns null (where the source would throw a `NullPointerException` at `result.isDenied()`, Watcher.java:61, 77, 99), it may return a satisfied result that carries a notifier (which the source cannot build; the run returns on it), every `Start` restarts the answer index at 0 (so a second `start()` on the same watcher replays the same answers), and the timeout and polling interval are fixed when the run starts (so a reconfiguration from inside `accept()` is not seen).
