# juggler — a Dafny model of the Runner and of the facade's job policy

juggler runs background jobs from beanstalkd on EventMachine. A
`JugglerInstance` (lib/juggler.rb) holds the configuration and the list of
Runners. Each `Runner` (lib/juggler/runner.rb) watches one tube. It issues a
`reserve` whenever it is on, connected, not already reserving and below its
concurrency. It classifies what the reserve returns:

- a body the serializer cannot load is deleted;
- the `"__STOP__"` sentinel is deleted;
- a job that arrives after `stop` is released;
- any other job gets a new JobRunner, which is added to `@running`.

It also reacts to the reserve's errors:

- `deadline_soon` asks every running JobRunner to check its lease and waits one second;
- `disconnected` does nothing;
- `timed_out` and any other error re-evaluate at once.

Every callback runs to completion on one event loop, so the Runner is a
sequential state machine whose steps are callbacks.

The project has five modules:

- `RubyValues` (ruby_values.dfy): the Ruby values the core compares (strings and
  symbols) and Ruby exceptions, with whether their class descends from
  StandardError.
- `JugglerPolicy` (juggler_policy.dfy): the pure parts of lib/juggler.rb.
  - The default backoff function: release with a growing delay, bury after one day.
  - The chain of delays a job that always fails goes through.
  - How `juggle_sync` resolves the job's deferrable from the way the strategy block ended.
  - Every call `juggle_sync` makes on that deferrable, including the `fail(e)` that
    follows when a callback of `succeed` or `fail` raises.
- `RunnerMachine` (runner_machine.dfy): the Runner as a state machine over values.
  - There is one transition function per callback. Each returns the next state and
    the effects issued on beanstalkd, on JobRunners and on the timer.
  - `Step` dispatches on the callback, and `Exec` folds a sequence of callbacks.
  - Per-callback lemmas: the invariant is kept; at most `concurrency` jobs run; at
    most one reserve is outstanding; a JobRunner stays in `running` until its own
    `:done`; stop completion never outruns a started job; no job starts after `stop`.
  - The integration test in which a job arrives after stop, replayed.
- `Runners` (runners.dfy): class `Runner`.
  - Its fields are the instance variables. Each callback is a method that updates
    them in place and appends its effects to a ghost `log`.
  - Each method is proved to do exactly what the matching transition function
    does. The class invariant `Valid()` is `RunnerMachine.Inv` of the fields.
  - `check_all_reserved_jobs` keeps its loop over `@running`.
- `Facade` (facade.dfy): class `JugglerInstance`.
  - `@runners` and `@shutdown_grace_timeout`.
  - `add_runner`, `juggle`, and `stop`, which loops over the Runners and calls
    `stop` on each, in order.

### Modelling decisions

- **Backoff over whole seconds.** The source computes
  `([1, delay * 1.3].max).ceil` in floating point. The delays in a job's stats
  are whole seconds, so the model uses the integer form `max(1, ceil(13 * d / 10))`,
  written `(13 * d + 9) / 10`. The worked values in the comment at
  lib/juggler.rb:27 (2, 3, 4, 6, 8, 11, 15, 20, …, 72465) are proved of this form.
- **The facade does the `add_runner` call.** `Runner#run` calls `add_runner`
  on its juggler (lib/juggler/runner.rb:103). In the model, `Facade.JugglerInstance.Juggle`
  does it right after `Runner.Run`, so that `Runners` need not depend on `Facade`.
- **Before `run`.** Before `run`, `@on` is `nil`. The model has a `started` flag
  that is false, with `on` false.
- **Stop completion fires once.** `@stop_df.succeed` can be reached more than
  once. An EventMachine deferrable runs its callbacks only once, so the model
  records `stopDone` and closes the connection only the first time.
- **`Array#delete`.** It removes every equal entry. `RunnerMachine.Without`
  models it as a filter. Identities are distinct, so it removes exactly one.
- **Which exceptions `juggle_sync` catches.** A bare `rescue => e` catches only
  StandardError.
  - A `throw` whose tag is not `:fail` raises a StandardError, so the job fails
    with that exception. Its class is UncaughtThrowError from Ruby 2.2 on; older
    versions raise ArgumentError or NameError, with the same effect. The model
    names it UncaughtThrowError.
  - An exception outside StandardError escapes. Neither `succeed` nor `fail` is
    called, and the model says so (`Unresolved`).
  - The code's own comment promises that "an exception" fails the job; the model
    follows the code.
  - The `rescue` also covers the `succeed` and `fail(caught_response)` calls in the
    `begin`. When a callback that one of them runs raises a StandardError, the
    `rescue` calls `fail(e)` after it. That is a second call on the deferrable
    (`JugglerPolicy.JuggleSyncCalls`).
- **An undecodable body.** The code logs the exception through `handle_exception`
  (lib/juggler/runner.rb:146-149), deletes the job and re-evaluates. It does not
  call the configured exception handler. The model follows the code.

## Model

| member | source | states |
|---|---|---|
| JugglerPolicy.BackoffDelay | lib/juggler.rb:28 | The delay is at least 1 and at least 1.3 × the prior delay, and is the least whole number with both properties (`ceil(max(1, 1.3·prior))`). In particular it is strictly greater than the prior delay. |
| JugglerPolicy.DefaultBackoff | lib/juggler.rb:26-34 | Exactly one decision: bury if and only if the delay exceeds 60·60·24 seconds; otherwise release with that delay, which is then above the prior and at most one day. |
| JugglerPolicy.ReleasedDelays | lib/juggler.rb:26-34 | Every delay with which a job that keeps failing is released lies above the starting delay and is at most one day. |
| JugglerPolicy.ReleasedDelaysIsReleaseChain | lib/juggler.rb:26-34 | Those delays are a release chain: each is what the backoff function releases with after the previous one, and the failure after the last one buries the job. |
| JugglerPolicy.ReleaseChainIsReleasedDelays | lib/juggler.rb:26-34 | The chain is unique: any release chain ending in burial is exactly `ReleasedDelays`. |
| JugglerPolicy.ReleasedDelaysIncrease | lib/juggler.rb:27-28 | The release delays of a repeatedly failing job strictly increase. |
| JugglerPolicy.DocumentedBackoffChainStart | lib/juggler.rb:27 | The worked values of the comment: 2→3, 3→4, 4→6, 6→8, 8→11, 11→15, 15→20. The model adds two steps of its own in front, 0→1 and 1→2; the comment starts at 2. |
| JugglerPolicy.BackoffChainMiddle | lib/juggler.rb:27 | The "…" of the comment, from 20 to 1087 seconds. |
| JugglerPolicy.DocumentedBackoffChainEnd | lib/juggler.rb:27-33 | The chain continues to 55742 → 72465. 72465 is the last delay released (`ReleasedDelays(55742) == [72465]`), and the next failure buries the job. |
| JugglerPolicy.JuggleSyncResolution | lib/juggler.rb:100-121 | A normal return succeeds, and nothing else does. `throw(:fail, x)`, and only that, fails with `x`. A StandardError `e` fails with `e`. A throw with another tag fails with UncaughtThrowError. The deferrable is left unresolved exactly when a non-StandardError escapes, and it records that very exception. This resolution is the first call the wrapper makes on the deferrable. A callback that raises can lead to a second call (`JuggleSyncCalls`). |
| JugglerPolicy.FirstCall | lib/juggler.rb:110-116 | Success calls `succeed`, and failure with a reason calls `fail` with that reason, once. No call is made exactly when the resolution is unresolved. |
| JugglerPolicy.JuggleSyncCalls | lib/juggler.rb:101-119 | When any call is made, the first one is the resolution (`JuggleSyncResolution`). A call is made exactly when the strategy's outcome does not escape, whether or not a callback raises. When no callback raises, there are no other calls. There are at most two calls. A second call happens exactly when the strategy returned or threw `:fail` and a callback of that `succeed` or `fail` raised a StandardError `e`, and it is `fail(e)`. |
| Facade.JugglerInstance.constructor | lib/juggler.rb:36 | A new instance has no Runners and no grace timeout configured. |
| Facade.JugglerInstance.SetShutdownGraceTimeout | lib/juggler.rb:8 | The writer sets the configured value and touches nothing else. |
| Facade.JugglerInstance.ShutdownGraceTimeout | lib/juggler.rb:43-47 | The configured value when one is set, otherwise 2 seconds. |
| Facade.JugglerInstance.AddRunner | lib/juggler.rb:129-131 | The Runner is appended to `@runners`, after the others; nothing else changes. |
| Facade.JugglerInstance.Juggle | lib/juggler.rb:70-72 | A fresh Runner is created in its initial state and run: it is on, it has issued only the connection, and its invariant holds. It is appended to `@runners`. |
| Facade.JugglerInstance.Stop | lib/juggler.rb:74-76 | `stop` is called on every registered Runner, in registration order; the call log grows by exactly `@runners`. Every Runner ends up stopped with its invariant, and no Runner issues anything. |
| RunnerMachine.Without | lib/juggler/runner.rb:71 | `Array#delete`: the result holds exactly the entries other than `x`. It is never longer than the input, is unchanged if `x` is absent, and keeps distinct entries distinct. |
| RunnerMachine.WithoutAt | lib/juggler/runner.rb:70-73 | A JobRunner that occurs once, at index k, is removed and the other entries keep their order. |
| RunnerMachine.Initial | lib/juggler/runner.rb:3-11 | `Runner.new`: nothing runs, nothing is reserved, the Runner is not yet on, and the invariant holds. The tube and concurrency are as given. |
| RunnerMachine.Run | lib/juggler/runner.rb:101-108 | `run` turns the Runner on and opens exactly one connection. Every other field is unchanged; in particular the new connection is not yet connected. |
| RunnerMachine.ReserveIfNecessary | lib/juggler/runner.rb:16-25 | Three cases. If the Runner may reserve, one reserve is issued and `reserved` is set. If it is off, idle and stop has not yet completed, the connection is closed and `stopDone` is set. Otherwise nothing happens. Only `reserved` and `stopDone` can change. |
| RunnerMachine.ReserveIfNecessaryGuards | lib/juggler/runner.rb:16-28 | A reserve is issued if and only if the Runner is on, connected, not reserving and below its concurrency. `reserved` afterwards holds if and only if it held or a reserve was issued. The stop completes if and only if the Runner is off, not reserving, idle and not yet completed, and then nothing is reserved or running. `running` and `on` are unchanged. |
| RunnerMachine.ReserveIfNecessaryKeeps | lib/juggler/runner.rb:16-25 | `reserve_if_necessary` keeps the tube, the concurrency and the `started` flag, and it keeps the invariant of a started Runner. |
| RunnerMachine.Inv | lib/juggler/runner.rb:134-135 | The invariant implies the promise of the comment on `running_jobs`: it is between 0 and `@concurrency`. It also implies that a reserve is outstanding only while fewer than `@concurrency` jobs run. |
| RunnerMachine.Enabled | lib/juggler/runner.rb:27-33 | An assumption about the environment, not something the source checks: `run` happens only while the Runner is not yet started. Every callback other than `run` and `stop` happens only after it. `stop` can happen at any time. A reserve completes only while one is outstanding. |
| RunnerMachine.ReserveIfNecessaryReserves | lib/juggler/runner.rb:16-28 | `reserve_if_necessary` completes no reserve. It issues one exactly when `reserved` goes from false to true. |
| RunnerMachine.ReserveIfNecessaryStartsNoJob | lib/juggler/runner.rb:16-25 | `reserve_if_necessary` starts no JobRunner and does not change `on` or `started`. |
| RunnerMachine.OnConnectReserves | lib/juggler/runner.rb:109-112 | `on_connect` completes no reserve. It issues one exactly when `reserved` goes from false to true. |
| RunnerMachine.OnConnectStartsNoJob | lib/juggler/runner.rb:109-112 | `on_connect` starts no JobRunner. |
| RunnerMachine.OnReserveJobReserves | lib/juggler/runner.rb:32-76 | The reserve's callback completes the outstanding reserve. It leaves a new one outstanding exactly when it issues one. |
| RunnerMachine.OnReserveErrorReserves | lib/juggler/runner.rb:78-98 | The reserve's errback completes the outstanding reserve. It leaves a new one outstanding exactly when it issues one. |
| RunnerMachine.OnReserveErrorStartsNoJob | lib/juggler/runner.rb:78-98 | No reserve error starts a JobRunner. |
| RunnerMachine.OnConnect | lib/juggler/runner.rb:109-112 | `on_connect` first watches the Runner's own tube, then does exactly what `reserve_if_necessary` does on the connected state: the same effects after the watch and the same next state. `running` is unchanged. |
| RunnerMachine.OnConnectionLost | lib/juggler/runner.rb:113-115 | `on_disconnect` only marks the Runner disconnected and tells the juggler. |
| RunnerMachine.Classify | lib/juggler/runner.rb:35-54 | Each job falls in exactly one class, in the order the callback checks. A body that does not load is undecodable. A loaded `"__STOP__"` is the sentinel. Any other value is a job that arrived after stop when the Runner is off, and a real job carrying those params when it is on. |
| RunnerMachine.OnReserveJob | lib/juggler/runner.rb:32-76 | The reserve's callback clears `@reserved`, then applies the checks of `Classify` in order. It does not turn the Runner on or off, and it does not touch the connection. Its outcome per kind of job, including the `reserve_if_necessary` after a delete or release, is `OnReserveJobOutcomes`. |
| RunnerMachine.OnReserveJobOutcomes | lib/juggler/runner.rb:32-76 | An undecodable body or the sentinel is deleted and not released. A job that arrives after stop is released and not deleted. None of these starts a JobRunner or changes `running`. After the delete or release, the callback does exactly what `reserve_if_necessary` does with `@reserved` cleared, both next state and effects. So it reserves again, or it completes a pending stop. A real job starts exactly one JobRunner under the next identity, and nothing else is issued. The next state differs from the old one only in that `@reserved` is cleared, the identity is appended to `running` and the identity counter moves on. A reserve is outstanding afterwards only if this callback issued it. |
| RunnerMachine.OnReserveJobKeepsInv | lib/juggler/runner.rb:32-58 | The reserve's callback keeps the invariant. A job is started only while a reserve was outstanding, so only below the concurrency, and its identity is fresh. |
| RunnerMachine.CheckAll | lib/juggler/runner.rb:158-163 | One `check_for_timeout` per running JobRunner, in the order of `@running`. |
| RunnerMachine.OnReserveError | lib/juggler/runner.rb:78-98 | The reserve's errback clears `@reserved`, then dispatches on the error. It does not turn the Runner on or off, and it does not touch the connection. Its outcome per error, with the next state in full, is `OnReserveErrorOutcomes`. |
| RunnerMachine.OnReserveErrorOutcomes | lib/juggler/runner.rb:78-98 | `deadline_soon` issues one `check_for_timeout` per running JobRunner, in order, then starts the one-second timer, and issues no reserve. Its next state differs from the old one only in that `@reserved` is cleared and one more timer is pending. `disconnected` issues nothing and only clears `@reserved`. `timed_out` and any other error do exactly `reserve_if_necessary`. No error changes `running`. |
| RunnerMachine.OnJobRunning | lib/juggler/runner.rb:65-67 | A JobRunner's `:running` event re-evaluates and changes nothing else; `running` is unchanged. |
| RunnerMachine.OnJobDone | lib/juggler/runner.rb:70-73 | After `:done` the JobRunner is no longer running and every other one still is. When it occurred once, at index k, exactly that entry is removed and the rest keep their order. Then the Runner re-evaluates. |
| RunnerMachine.OnDeadlineTimer | lib/juggler/runner.rb:87-89 | When the one-second timer of `check_all_reserved_jobs` fires, the Runner re-evaluates with one fewer pending timer; `running` is unchanged. |
| RunnerMachine.Stop | lib/juggler/runner.rb:120-132 | `stop` only turns the Runner off and sets a fresh stop deferrable. It issues nothing and does not itself complete the stop. Every other field, including `running` and `reserved`, is unchanged. |
| RunnerMachine.StepKeepsConfig | lib/juggler/runner.rb:3-7 | No callback changes the tube or the concurrency, and a started Runner stays started. |
| RunnerMachine.StepKeepsInv | lib/juggler/runner.rb:134-137 | Every callback that can happen keeps the invariant: at most `concurrency` JobRunners, a reserve only while a slot is free, distinct identities, and nothing running or reserved once the stop has completed. |
| RunnerMachine.StepDisconnectsOnlyWhenIdle | lib/juggler/runner.rb:22-24 | A callback closes the connection for the stop only when the Runner is off, nothing is reserved and nothing runs. |
| RunnerMachine.StepKeepsRunning | lib/juggler/runner.rb:58-73 | A running JobRunner stays in `running` through every callback other than its own `:done`. |
| RunnerMachine.StepStarts | lib/juggler/runner.rb:56-75 | A callback starts no JobRunner, unless it is the reserve's callback and `Classify` finds a real job. That callback starts exactly one, under the next identity, and appends it to `running`. |
| RunnerMachine.StepStartsIntoRunning | lib/juggler/runner.rb:56-58 | A JobRunner started by a callback is in `running` after it. |
| RunnerMachine.StepReserves | lib/juggler/runner.rb:27-33 | Per callback, the reserves issued plus the one outstanding before equal the reserves completed by this callback plus the one outstanding after. A callback completes a reserve exactly when it is the reserve's callback or errback. |
| RunnerMachine.StepAfterStop | lib/juggler/runner.rb:50-54 | After a started Runner is stopped, a callback leaves it started and off and starts no JobRunner. |
| RunnerMachine.ExecKeepsInv | lib/juggler/runner.rb:134-137 | After any possible sequence of callbacks the invariant holds. In particular `running_jobs` is between 0 and the concurrency, and the concurrency has not changed. |
| RunnerMachine.OneReserveOutstanding | lib/juggler/runner.rb:16-33 | Over any possible sequence of callbacks, the reserves issued plus the one outstanding at the start equal the reserves completed plus the one outstanding at the end. So at most one reserve is ever outstanding, and it is outstanding exactly while `reserved` is set. |
| RunnerMachine.UnfinishedJobsAreRunning | lib/juggler/runner.rb:56-73 | After any sequence of callbacks, a JobRunner that was running or was started, and has not reported `:done`, is still in `running`. |
| RunnerMachine.StopWaitsForStartedJobs | lib/juggler/runner.rb:22-24 | When a callback closes the connection for the stop, the Runner is off, nothing is reserved, and every JobRunner started so far has reported `:done`. |
| RunnerMachine.NoJobStartsAfterStop | lib/juggler/runner.rb:50-54 | Once a started Runner is stopped, no sequence of callbacks starts a JobRunner, and the Runner stays off. |
| RunnerMachine.StartOfJobAfterStopTest | spec/integration/juggler_spec.rb:122-133 | With concurrency 2, a Runner is run, connected and given a job, and the job reports `:running`. The Runner has then opened the connection, watched the tube, reserved, started JobRunner 0 and reserved again, in that order. |
| RunnerMachine.StartOfJobAfterStopSteps | spec/integration/juggler_spec.rb:122-133 | The four callbacks of that first half, one at a time: the state after each and what each issues. |
| RunnerMachine.EndOfJobAfterStopTest | spec/integration/juggler_spec.rb:134-143 | From there, `stop` issues nothing, the job that arrives next is released (not started), and the first job's `:done` closes the connection. |
| RunnerMachine.SecondJobReleasedTest | spec/integration/juggler_spec.rb:122-142 | The test up to the second job is a possible sequence of callbacks. The second job, which arrives after `stop`, is released, and nothing else is issued after the first half. |
| RunnerMachine.JobArrivingAfterStopIsReleased | spec/integration/juggler_spec.rb:122-145 | The whole scenario of the test is a possible sequence of callbacks. Its effects are: connection, watch, reserve, start of the first job, reserve, release of the second job, disconnect. Only the first job is ever started. |
| Runners.Runner.constructor | lib/juggler/runner.rb:3-11 | The fields are `RunnerMachine.Initial`, the log is empty and the invariant holds. |
| Runners.Runner.Run | lib/juggler/runner.rb:101-108 | The fields become `RunnerMachine.Run` of the old fields, its effects are logged, and the invariant holds. |
| Runners.Runner.Reserve | lib/juggler/runner.rb:27-30 | `reserved` is set and one reserve with a one-second timeout is logged; nothing else changes. |
| Runners.Runner.ReserveIfNecessary | lib/juggler/runner.rb:16-25 | The two sequential checks, in place, do exactly `RunnerMachine.ReserveIfNecessary`, state and effects. |
| Runners.Runner.OnConnect | lib/juggler/runner.rb:109-112 | Exactly `RunnerMachine.OnConnect`, state and effects, keeping the invariant. |
| Runners.Runner.OnConnectionLost | lib/juggler/runner.rb:113-115 | Exactly `RunnerMachine.OnConnectionLost`, keeping the invariant. |
| Runners.Runner.IssueThenReserve | lib/juggler/runner.rb:39-40 | One command is logged, followed by exactly the effects of `reserve_if_necessary`. |
| Runners.Runner.StartJobRunner | lib/juggler/runner.rb:56-75 | The next identity is appended to `@running`, the identity counter moves on, and the start of that JobRunner with the job's params is logged. |
| Runners.Runner.OnReserveJob | lib/juggler/runner.rb:32-76 | Exactly `RunnerMachine.OnReserveJob`, state and effects, keeping the invariant. |
| Runners.Runner.CheckAllReservedJobs | lib/juggler/runner.rb:158-176 | The loop logs `check_for_timeout` for every running JobRunner in order (`RunnerMachine.CheckAll`), then starts the one-second timer; only the timer count changes. |
| Runners.Runner.OnReserveError | lib/juggler/runner.rb:78-98 | Exactly `RunnerMachine.OnReserveError`, state and effects, keeping the invariant. |
| Runners.Runner.OnJobRunning | lib/juggler/runner.rb:65-67 | Exactly `RunnerMachine.OnJobRunning`, keeping the invariant. |
| Runners.Runner.OnJobDone | lib/juggler/runner.rb:70-73 | Exactly `RunnerMachine.OnJobDone`, keeping the invariant. `@running` is reassigned to the sequence without the finished JobRunner (`RunnerMachine.Without`). |
| Runners.Runner.OnDeadlineTimer | lib/juggler/runner.rb:87-89 | Exactly `RunnerMachine.OnDeadlineTimer`, keeping the invariant. |
| Runners.Runner.Stop | lib/juggler/runner.rb:120-132 | Exactly `RunnerMachine.Stop`: off, a fresh stop deferrable, nothing issued, invariant kept. |
| Runners.Runner.RunningJobs | lib/juggler/runner.rb:134-138 | `running_jobs` is the size of `@running` and is between 0 and the concurrency. |

## Left out

- beanstalkd I/O through `EMJack::Connection` (connect, watch, reserve, delete, release, put, disconnect) is not performed. Each is an `Action` in the Runner's log, and each answer from the server is an incoming callback.
- EventMachine timers and deferrables are not modelled as objects. The one-second timer of `check_all_reserved_jobs` is the `DeadlineTimerFired` callback. The deferrable that callback waits on is the `timers` count.
- The `EM.defer` thread pool of `juggle_sync` is left out; only the resolution of the job's deferrable is modelled. The Runner that `juggle_sync` creates is the one `juggle` creates, with a different strategy.
- `JobRunner` (lib/juggler/job_runner.rb) is not part of this model. It is an opaque identity that receives `StartJob` and `CheckForTimeout` and sends `:running` and `:done`. Each of its events is a separate callback. The model assumes that `check_for_timeout` never emits `:done` synchronously. If it did, `@running.delete` would run inside `@running.each` (lib/juggler/runner.rb:161-163, 71). Ruby would then skip the next JobRunner, and `CheckAll` would overstate which JobRunners are checked.
- The serializer (Marshal by default) is not modelled. What it makes of a body is given as a `LoadResult`: it failed, or it produced a value.
- Logging, the default exception handler, URI parsing, the `on_disconnect` hook and its `disconnected` dispatch are not modelled. The same goes for the `default` / `method_missing` singleton delegation. A lost connection is logged as `NotifyDisconnected`.
- `throw` and `server=` of the facade are connection plumbing and are not modelled.
- `running?` (lib/juggler.rb:78-80) is not modelled. It calls `Runner#running?`, which the Runner does not define.
- Runners.Runner.Stop: does not return the deferrable `df` that `stop` hands back. The model records the moment the connection is closed (`Disconnect`); `df` succeeds after the disconnect completes, which is not modelled.
- Facade.JugglerInstance.Stop: does not return a value. The source returns the result of `@runners.each`, which is the Runner array, not a deferrable that succeeds when all Runners have stopped.
- JugglerPolicy.BackoffDelay: computed over whole seconds instead of Ruby floats. It agrees with `([1, d * 1.3].max).ceil` for whole-second delays as long as the product is exact enough. It does not model a non-integer delay or floating-point rounding.
- Facade.JugglerInstance.ShutdownGraceTimeout: the configured value is a real number or unset. A configured `false`, which `|| 2` would also replace by 2, and values of other Ruby types are not modelled. Nothing in the shown code enforces the grace timeout, so neither does the model.
- No sentinel is injected on stop, because the shown `stop` does not do that.
- Facade.JugglerInstance.Juggle: the default `concurrency = 1` of `juggle` and `juggle_sync` (lib/juggler.rb:70, 100) is not modelled. Callers always pass the concurrency.
- JugglerPolicy.JuggleSyncCalls: a StandardError raised by a callback of the `rescue`'s own `fail(e)` is not covered by any `rescue`. It escapes the `EM.defer` block, and the model does not follow it further.
