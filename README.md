# vInsert base script: authorization gate and scheduler loop

This project models the core of `Script`, the base class of every vInsert bot
script, in Dafny. The model has three modules:

- `Authorization` (`authorization.dfy`) models `canUse`. It decides whether the
  current user may run a script of a given tier. Inputs are the manifest's
  tier (FREE, VIP or another tier), the client's offline-mode flag, the login
  session (logged in or not, group id) and the eight privileged group ids of
  the login service. `Authorized` is the decision as a predicate. `CanUse` is
  the method with the source's loop over the allow-list, and it is proved equal
  to `Authorized`.
- `Scheduler` (`scheduler.dfy`) models the run loop as a pure state machine.
  The state is the three run-state fields (`exitRequested`, `paused`,
  `nextExecutionTime`, which starts at -1).
  - `Step` is one tick: the random-event check, the exit check, pulse dispatch
    and the idle wait.
  - `Ticks` drives the loop over a sequence of rounds. In each round, another
    thread may first request an exit or change the pause flag.
  - The lemmas state what a run guarantees.
- `Scripts` (`script.dfy`) holds the class `Script`. Its fields are the ones
  the source updates in place: the manifest, the context, a "modules bound"
  flag and the run state. Ghost counters record calls to the pulse hook, to the
  host's `popScript` and to the random-event pool's `check`.
  - `Create` binds the script to a context.
  - `Run` covers the pool installation and the init prologue. `Loop` is the
    driver loop and `Tick` is one iteration.
  - The controls are `RequestExit`, `Destroy` and `SetPaused`, with the getters
    `IsExitRequested` and `IsPaused`.
  - Each mutating method is proved against the `Scheduler` functions or states
    its whole new state.

Inputs from outside the program become parameters:
- the clock readings (the one used for pulse dispatch and the one used for the
  wait);
- the value the pulse hook returns;
- the outcome of `init` (true, false or an exception);
- whether the script is itself a random event;
- the login session and offline flag.

The idle wait is not performed. Each tick returns the number of milliseconds
it would sleep.

Behaviour that follows the code, not the intended policy:
- An offline client with nobody logged in is allowed only FREE scripts. Line 80
  lets a not-logged-in user through only when the client is online (see
  `OfflineWithoutLoginOnlyFree`).
- An online client with nobody logged in may run any tier, VIP included (see
  `OnlineWithoutLoginAllowed`).
- A negative pulse delay calls `popScript` but does not leave the loop. With no
  exit request, the next tick is already due and pulses again (see
  `NegativeDelayKeepsLooping`). In the model only the exit check ends the loop
  (see `StopOnlyOnExitRequest`); an exception escaping the loop body also ends
  it in the program, and that path is listed under "Left out".
- An exception thrown by `init` is ignored, and the loop starts as if `init`
  had returned true (`Run`). The same holds when `init` returns false for a
  script without a manifest: the warning's `manifest.name()` fails inside the
  same `try`, so `popScript` is skipped and the loop starts.

## Model

| member | source | states |
|---|---|---|
| Authorization.VipGroups.Ids | source/org/vinsert/bot/script/Script.java:86-87 | the allow-list has eight entries, and an id is on it exactly when it equals one of the eight privileged group constants |
| Authorization.CanUse | source/org/vinsert/bot/script/Script.java:79-96 | the gate with its loop over the allow-list returns exactly the as-written decision `Authorized`; the loop's early return is the same as membership in the list |
| Authorization.FreeAlwaysAllowed | source/org/vinsert/bot/script/Script.java:80-82 | a FREE script is allowed for every login state and group |
| Authorization.OnlineWithoutLoginAllowed | source/org/vinsert/bot/script/Script.java:80-82 | an online client with nobody logged in may run a script of any tier |
| Authorization.OfflineWithoutLoginOnlyFree | source/org/vinsert/bot/script/Script.java:80-85 | an offline client with nobody logged in is allowed exactly the FREE scripts |
| Authorization.BannedGroupOnlyFree | source/org/vinsert/bot/script/Script.java:83-85 | a logged-in user of group 8 is allowed exactly the FREE scripts, even if 8 is on the allow-list |
| Authorization.LoggedInRestricted | source/org/vinsert/bot/script/Script.java:86-95 | for a logged-in user outside group 8, a non-FREE script is allowed if and only if it is VIP and the user's group is one of the eight privileged ids |
| Authorization.OutsideAllowListDenied | source/org/vinsert/bot/script/Script.java:83-95 | a non-FREE script is refused to a user outside the allow-list unless the client is online with nobody logged in |
| Scripts.Script.constructor | source/org/vinsert/bot/script/Script.java:37-47 | a new script has no manifest, no context, no bound modules, no exit request, is not paused, and has next execution time -1 |
| Scripts.Script.Create | source/org/vinsert/bot/script/Script.java:103-130 | the context is stored first. The result is: missing-manifest when there is no manifest; cannot-use when the gate refuses; created otherwise. The modules are bound only on success. The run state is unchanged |
| Scripts.Script.Run | source/org/vinsert/bot/script/Script.java:172-188 | installs the random-event pool unless the script is a random event. If `init` returns false and the script has a manifest: exactly one `popScript`, no pulse, no tick, and the run state is unchanged. If `init` returns true or throws, or returns false for a script without a manifest (the name lookup for the warning fails inside the guarded block, and the failure is ignored): the run is exactly the loop `Ticks` over the rounds, with no extra pop |
| Scripts.Script.Loop | source/org/vinsert/bot/script/Script.java:193-223 | the driver loop ends in the final state of `Ticks`. The pulse, pop and check counters grow by the trace's counts. It reports the number of ticks and whether the loop was left |
| Scripts.Script.Tick | source/org/vinsert/bot/script/Script.java:194-222 | one iteration of the loop body changes the fields as `Step` says and returns its result. Each of the three counters grows by one exactly when the tick made that call |
| Scripts.Script.Apply | source/org/vinsert/bot/script/Script.java:273-286 | a control from another thread changes the run state as `ApplyControl` says and leaves everything else alone |
| Scripts.Script.Destroy | source/org/vinsert/bot/script/Script.java:229-234 | sets the exit request; the pause flag, the schedule, the bindings and the counters are unchanged |
| Scripts.Script.IsExitRequested | source/org/vinsert/bot/script/Script.java:266-268 | returns the exit-request flag |
| Scripts.Script.RequestExit | source/org/vinsert/bot/script/Script.java:273-275 | sets the exit request and changes nothing else |
| Scripts.Script.IsPaused | source/org/vinsert/bot/script/Script.java:280-282 | returns the pause flag |
| Scripts.Script.SetPaused | source/org/vinsert/bot/script/Script.java:284-286 | sets the pause flag to the argument and changes nothing else; in particular it never clears an exit request |
| Scripts.PauseThenDestroy | source/org/vinsert/bot/script/Script.java:229-286 | a caller that pauses, queries, destroys and queries again reads back the flag it set, then sees an exit request; the schedule is untouched |
| Scheduler.IdleWait | source/org/vinsert/bot/script/Script.java:211-222 | the wait is never negative. Before any positive schedule (including the initial -1) it is 200 ms. Otherwise the loop wakes no earlier than the next execution time, and exactly at it when it sleeps at all |
| Scheduler.Step | source/org/vinsert/bot/script/Script.java:193-222 | a tick polls the pool exactly when one is installed. It leaves the loop exactly when an exit was requested, then with one pop and no pulse. It pulses exactly when not paused and the clock is at or past the next execution time, and the schedule then becomes clock + delay; otherwise the schedule is unchanged. It pops exactly on leaving or on a negative delay. It never changes the flags. Its wait is `IdleWait` of the new schedule, and 0 on the tick that leaves the loop |
| Scheduler.Ticks | source/org/vinsert/bot/script/Script.java:193-223 | a run has at most one tick per round, and at least one when there is a round. A run shorter than its rounds ended by leaving the loop. An exit request present at the start is still set at the end |
| Scheduler.TicksShape | source/org/vinsert/bot/script/Script.java:193-200 | only the last tick of a run can leave the loop, and every tick polled the random-event pool exactly when one is installed |
| Scheduler.ExitEndsNextTick | source/org/vinsert/bot/script/Script.java:197-200 | with an exit requested before a tick, the run is that single tick: one pop, no pulse, loop left |
| Scheduler.ExitAtRoundEnds | source/org/vinsert/bot/script/Script.java:197-200 | an exit requested by another thread before the tick of round k ends the run at that tick at the latest: the run has left the loop and has at most k + 1 ticks |
| Scheduler.StopOnlyOnExitRequest | source/org/vinsert/bot/script/Script.java:193-223 | a run that left the loop did so at a tick with no pulse, and its final state has the exit request set |
| Scheduler.ExitRequestSticks | source/org/vinsert/bot/script/Script.java:273-275 | once an exit is requested, at the start or by any round, it is still set at the end of the run |
| Scheduler.EveryTickChecks | source/org/vinsert/bot/script/Script.java:194-196 | with a pool installed, the number of random-event checks equals the number of ticks, paused or not; with none it is zero |
| Scheduler.PausedNeverPulses | source/org/vinsert/bot/script/Script.java:201-209 | while the script stays paused there is no pulse, and the next execution time is unchanged (no backlog) |
| Scheduler.FirstPulseNotEarly | source/org/vinsert/bot/script/Script.java:201-208 | the first pulse of a run happens at a clock reading no earlier than the next execution time the run started with |
| Scheduler.PulseNotEarly | source/org/vinsert/bot/script/Script.java:201-208 | if the pulse hook returns delay d at time t, the next pulse happens at a time no earlier than t + d |
| Scheduler.FirstTickPulses | source/org/vinsert/bot/script/Script.java:201-204 | a fresh script, whose next execution time is -1, pulses on its first tick at any non-negative clock reading |
| Scheduler.NegativeDelayKeepsLooping | source/org/vinsert/bot/script/Script.java:204-207 | delays 50, 50 and -1 and one more tick give four pulses, two pops, and a loop that is still running |
| Scheduler.NegativeDelayThenExit | source/org/vinsert/bot/script/Script.java:197-207 | delays 50, 50 and -1 and then an exit request give three pulses, two pops, and a loop that has been left |
| Scheduler.SleepCallAsWritten | source/org/vinsert/bot/script/Script.java:211-219 | the wait as written, with two clock readings: 200 ms while no positive schedule is set; otherwise it sleeps exactly when `IdleWait` at the first reading is positive, and passes that wait minus the time elapsed between the two readings |
| Scheduler.SleepArgumentCanBeNegative | source/org/vinsert/bot/script/Script.java:211-216 | as written, the wait can pass a negative duration to the sleep call when the clock moves between its two readings |
| Scheduler.IdleWaitMatchesSingleReading | source/org/vinsert/bot/script/Script.java:211-219 | with one clock reading, the wait as written never passes a negative duration and sleeps exactly `IdleWait` |

## Findings

| source | as written | input that shows it | evidently intended | confidence | as-written member | corrected member |
|---|---|---|---|---|---|---|
| source/org/vinsert/bot/script/Script.java:213-216 | the wait computes `sleep` from one clock reading. It compares that value with zero, but then passes `nextExecutionTime` minus a second, later clock reading to `Thread.sleep` | next execution time 1000, clock 999 at line 213 and 1001 at line 215: `Thread.sleep(-1)` throws `IllegalArgumentException`. The `catch` handles only `InterruptedException`, so `run` ends abruptly without `popScript` | `Thread.sleep(sleep)`: sleep the duration that was compared with zero, never a negative one | high, not executed | Scheduler.SleepArgumentCanBeNegative | Scheduler.IdleWait |

`SleepCallAsWritten` models the wait as written, with its two clock readings.
`IdleWait` is the corrected wait, and `Step` and `Script.Tick` use it.

## Left out

- Thread mechanics are not modelled: the process-wide uncaught-exception
  handler and its `ThreadDeath` filter (lines 154-168), `thread.interrupt()` in
  `destroy`, and the synchronized `getThread`/`setThread`. These are
  concurrency and JVM runtime behaviour. An interrupt only cuts the current
  wait short and never ends the loop, so `Destroy` keeps only its effect on the
  exit flag.
- Real time and sleeping are replaced by parameters. `System.currentTimeMillis`
  readings are inputs, and `Thread.sleep` is replaced by the returned wait
  duration.
- Other threads can change the flags at any moment, and the `init` and `pulse`
  hooks can call `requestExit` or `setPaused` on the loop's own thread. The
  model applies all such changes only between ticks (`Round.control`), one per
  round, and the next
  tick always sees them. In the program `exitRequested` and `paused` are plain,
  non-volatile fields (lines 37 and 42) with unsynchronized accessors (lines
  266-286), so Java does not guarantee that the loop thread ever sees another
  thread's write; that visibility gap is not modelled.
- The random-event pool is opaque. Its construction and `check` are reduced to
  a flag, "a pool is installed", and a counted call.
- Scheduler.Step / Scripts.Script.Tick: an exception from `pulse` (line 204)
  or from `context.randomEvents.check()` (line 195) is not modelled. Neither
  call is inside a `try`, so in the program such an exception ends `run`
  without `popScript`; the model only has ticks that return normally.
- Scheduler.Step / Scripts.Script.Tick: the wait is modelled with one clock
  reading (`IdleWait`). The program reads the clock twice (lines 213 and 215),
  and the `IllegalArgumentException` a negative sleep argument raises there
  also ends `run` without `popScript`; this is the finding above, modelled
  separately by `SleepCallAsWritten`.
- Scripts.Script.Run: two prologue paths are not modelled. An exception from
  the warning log or from `popScript` on the refusal path (lines 182-183) is
  caught at line 186, and the loop starts. An `Error` (not an `Exception`)
  thrown by `init` is not caught, and `run` ends. The model's `init` outcome
  is true, false or a caught exception, and the log and `popScript` always
  return normally.
- The `init`, `pulse` and `close` hooks are abstract. Their results are model
  inputs, and `close` is never called by the loop.
- Logging (lines 249-261) is left out: string formatting and an external sink.
  The "refused to start" warning is not modelled.
- The copying of the seventeen API module references in `create` is reduced to
  one `bound` flag.
- The manifest lookup by reflection is modelled as an optional manifest value
  passed to `Create`.
- The values of the eight privileged group constants of the login service are
  not part of this model. They are parameters (`VipGroups`).
- The random and sleep helpers (lines 312-354) are not part of this model. They
  rely on `Utils`, randomness and real sleeping.
- `getContext` and `getManifest` are plain getters with no behaviour beyond the
  fields, which the model exposes directly.
- Integer widths are not modelled. Times and `nextExecutionTime` are Java
  `long` and the delay is an `int`; the model uses unbounded integers, so an
  overflow of `time + delay` is not captured.
- The driver loop runs over a finite sequence of rounds. The source loop runs
  until it leaves, so a run that has not left when the rounds run out is
  reported as still running.
