# A verified model of the spawn launcher's core

spawn starts, watches and winds down cloud instances. This project models the parts of it where a mistake costs money or
loses data, and proves what they promise, for every input, every run and every interleaving:

- **Fan-out scheduling** (`FanOutModel`, `Gating`, `FanOutRuns`, `WorkConserving`, `Skips`, `Liveness`, `FanOutMachine`,
  `Instances`, `Drain`, `JobArrayMachine`): a directed graph of members launched under a cap, with delays, bounded retries,
  skip cascades, a stop policy and a minimum of viable members. `pump` is split at its `await client.launch(...)` and
  `enforceViability` at its `await client.terminate(...)`; launch results, instance deaths, the instance list a pump reads
  and the order of all these steps are arbitrary.
- **Queues** (`TopoSort`, `QueueBuild`, `QueueRules`, `QueueRuns`, `QueueLaunch`): validation, dependency order, what a
  validated queue guarantees to the fan-out that runs it, what the runs owe to the config, and what becomes of its timeouts
  at launch.
- **Launch checks** (`LaunchGuard`): what refuses a launch before anything is created.
- **Lifecycle of a fleet** (`Lifecycle`, `LifecycleRules`, `Fleet`, `FleetRuns`, `ComputeClock`, `Backstops`,
  `FleetMachine`, `Orphans`): runs of launch, stop, start, hibernate, terminate, extend, completion signals and monitor
  ticks.
- **Tags** (`Tags`, `TagTable`, `TagBuild`, `TagBudget`, `TagDecode`): what a launch writes and sends, what the readers get
  back of either, and AWS's limit of 50.
- **Codecs** (`Duration`, `DurationUnits`, `DurationGrammar`, `DurationText`, `JsonText`, `GoJson`, `JsonEscapes`,
  `JsonLayout`, `KeyOrder`, `JsonReader`, `JsonRoundTrip`, `JsonCanonical`, `JsonRecords`, `LaunchConfig`,
  `AgentMessage`, `FrameLayout`): durations, the Go-compatible JSON printer against a reader written from RFC 8259
  (sections 2 to 7) and, where a reader does not tell, character by character, the order of its keys against Go's, the
  launch config body, and the binary frame of SSM messages.
- **SSM input** (`SsmSession`, `SsmOrder`) and **parameter grids** (`Params`).

The source's classes are classes here (`FanOut`, `JobArray`, `MockProvider`, `SpawnClient`, `SsmSessionClient`), with the
same fields updated in place, and the locals of a suspended async method as further fields. Each method is proved equal to a
function from state to state, and the properties are proved of those functions over all runs. Loops that only accumulate a
result (`parseDuration`, `goJsonString`, `topologicalSort`, `validateQueue`, `buildSweepTags`, `expandGrid`, `findOrphans`,
…) are methods with loops, proved against functions or against the property itself.

Check the whole project with `dafny verify dfyconfig.toml`.

## What the code does not give

Where a promise one might expect is false of the code, an input that shows it is given and the exact condition is proved:

- A pump that reads a stale instance list takes a live instance for gone and launches beyond the cap
  (`Instances.StaleListOverrunsCap`), and an instance started again after its member had completed is live beyond the cap
  and held by nobody (`Instances.RestartOverrunsCap`). In every state of a run every live instance is held by a member, if
  and only if no list was stale about a live instance, no created instance outlived its failed launch, and no instance was
  started again that no member led to any more (`Instances.ConservedIffFaithful`).
- A member with an unknown or circular dependency is never launched; all members can complete if and only if there is none
  (`Liveness.CompletableIffAcyclic`).
- A job that `validateQueue` accepts can be refused at launch. With the rest of its launch input in order it is, exactly when
  its timeout is signed, padded with white space or above Go's ceiling, or is zero where a launch needs a lifetime: on a real
  provider without idle timeout, cost limit or `allowUnbounded`, and on EC2 under a nested-spawn profile
  (`QueueLaunch.JobLaunchIff`). A queue of one job with the timeout `0s` is valid (`QueueLaunch.ZeroQueueIsValid`) and refused
  there (`QueueLaunch.ZeroJobRefused`); where a timeout of zero is let through, the job runs without any TTL
  (`QueueLaunch.JobLifetime`).
- A real launch moves the idle CPU threshold and eight hook settings out of its tags, and the readers of `list` and `get` do
  not get them back: they see no threshold (`TagDecode.SentConfigDecodes`) and of the hooks the pre-stop command with its
  timeout (`TagDecode.SentHooksDecode`). Nothing is lost exactly by launches without a config object
  (`TagDecode.NothingLostIff`). The in-memory provider keeps all the tags (`TagDecode.ConfigDecodes`, `TagDecode.HooksDecode`).
- The comment on `minViable` says it is clamped to the member count; without members the code clamps it to 1
  (src/core/fanout.ts:209), so an empty fan-out counts as not viable. `FanOutMachine.Configure` follows the code.
- `MockProvider.start` revives a terminated instance (src/core/mock.ts:97-103, `FleetRuns.StartRevives`), and so do stop,
  hibernate and some completion signals. Termination is final in exactly the runs without such a request
  (`FleetRuns.TerminatedStays`).
- The comment on `start` says that restarting re-arms the idle clock. The code takes the later of the last activity and the
  launch, which never moves it (`Backstops.IdleClockIsLaunch`), so an instance stopped for idling and started again is stopped,
  or hibernated, again at the next tick (`Backstops.StoppedAgain`). When a started instance does survive the next tick is
  `Backstops.RestartSurvivesIff`.
- SSM input given while the queue is being flushed overtakes queued input (`SsmSession.LaterInputOvertakes`); exactly the runs
  without such input keep the order (`SsmOrder.OrderKeptIffQuiet`).
- An object whose keys differ only in lone surrogates prints a name twice, and a reader into records loses a member
  (`JsonRecords.HalvesCollide`), exactly then (`JsonRecords.MembersReadBackIff`).
- Sorting keys by code unit is Go's byte order for ASCII keys, as the printer's comment says (`KeyOrder.PlainKeysAgree`). Of
  other well-formed keys it is the opposite order exactly when their first difference is half a surrogate pair against a unit
  from U+E000 on (`KeyOrder.OrdersAgreeIff`, `KeyOrder.OrdersPart`).
- A duration with a fraction of a millisecond is written to the nearest millisecond (`Duration.FormattedReadsAs`), and below
  half of one it is lost (`TagDecode.RecordedIff`): an idle timeout of 100us reads as none. The deadline is cut instead, so the
  TTL pair of a launch or an extension agrees exactly when the fraction is below one half (`FleetRuns.PairAgreesIff`), which a
  TTL of 1.5ms is not; and a TTL below one millisecond expires at once (`FleetRuns.TickQuiesces`).
- A UUID or message type that is not canonical, or does not fit its field, is changed by the trip through the frame
  (`AgentMessage.UuidRoundTripIff`, `AgentMessage.RoundTripIff`).

## Model

| member | source | states |
|---|---|---|
| `FanOutModel.PassProgress` | src/core/fanout.ts:418-449 | every gating pass that changes something skips a member, or corrects a pending/blocked mark and skips none: the measure by which the fixpoint loop ends |
| `Gating.GatingSettles` | src/core/fanout.ts:418-463 | gating ends with every unstarted member in the state its dependencies and the stop conditions of the final statuses call for, and leaves every other member untouched |
| `Gating.GatingIsLeastFixpoint` | src/core/fanout.ts:418-463 | the members gating skips are the least set closed under the skip cascade and the stop conditions it brings about itself |
| `Gating.SkippedIffDoomedOrStopped` | src/core/fanout.ts:418-463 | an unstarted member ends skipped if and only if a stop condition holds of the result or a chain of unstarted dependencies leads to a failed or skipped member, whatever the member order |
| `Gating.OnePassSuffices` | src/core/fanout.ts:418-449 | with members in dependency order and the default threshold a single pass already is the fixpoint |
| `FanOutRuns.BeginInv` | src/core/fanout.ts:345-384 | a pump up to its first launch keeps the state invariant: dependencies completed before any attempt, budgets, the cap, at most one launch in flight, settled gating |
| `FanOutRuns.ResumeInv` | src/core/fanout.ts:385-405 | going on after a launch result keeps the same invariant, and moves on to a later member |
| `FanOutRuns.StepInv` | src/core/fanout.ts:345-411 | every event keeps the invariant and changes member records forward only |
| `FanOutRuns.RunLogInv` | src/core/fanout.ts:345-411 | in every run the launch log, the two clocks and the attempt counters agree, and launches are spaced and ordered |
| `FanOutRuns.LaunchDiscipline` | src/core/fanout.ts:345-411 | in every state of every run: a member with an attempt has all dependencies completed, attempts stay within max(1, maxAttempts), launches are at least launchDelayMs apart, attempts with one key at least retryDelayMs, one attempt per member and pump, and running plus in flight never exceed maxConcurrent, or the member count without one |
| `FanOutRuns.TerminalStates` | src/core/fanout.ts:345-411 | completed, failed and skipped members never change again, attempts never go down, and a running member stays as it is or completes |
| `FanOutRuns.StopIsALatch` | src/core/fanout.ts:268-280 | from the moment a stop condition or non-viability holds it holds for ever, nobody is launching or waiting, and no launch is attempted again, later in the same pump included |
| `WorkConserving.NoIdleCapacity` | src/core/fanout.ts:368-411 | when a pump ends, in any run, every member still pending has a reason: the cap is full, the last launch of the log is less than launchDelayMs ago, the last attempt with its key is less than retryDelayMs ago, or it had its attempt in this pump |
| `WorkConserving.FirstEligibleLaunches` | src/core/fanout.ts:368-384 | while a launch is in flight every pending member before it is backing off or had its attempt in this pump: each launch takes the first that may go |
| `WorkConserving.AttemptsAllowed` | src/core/fanout.ts:388-395 | a member is attempted at most maxAttempts times, once if unset or below one, and fails only when no more is allowed |
| `WorkConserving.RetriesApart` | src/core/fanout.ts:376-380 | consecutive attempts with one key are at least retryDelayMs apart, told by the log alone |
| `Skips.SkippedForCause` | src/core/fanout.ts:418-463 | in every run a member is skipped only because a member it names as a dependency failed or was skipped, or because the set is halted: a failure under the stop option, or fewer than minViable members neither failed nor skipped |
| `Skips.WaitsForCause` | src/core/fanout.ts:418-463 | from the first pump on no unstarted member has a lost dependency or a halted set, and it is pending exactly when all the members it names have completed |
| `Skips.HaltedIsFinal` | src/core/fanout.ts:418-434 | once the set is halted nothing is launched any more, whatever follows, and nobody waits |
| `Skips.AttemptedInOrder` | src/core/fanout.ts:451-463 | a member with an attempt has every member it names completed |
| `Liveness.NoDeadlock` | src/core/fanout.ts:345-463 | for known, acyclic dependencies, between pumps of every run an unstarted member means that some member is ready or running |
| `Liveness.PumpProgress` | src/core/fanout.ts:345-411 | each whole pump with delays elapsed and running instances gone strictly reduces the work left, whatever the launch results |
| `Liveness.FanOutFinishes` | src/core/fanout.ts:345-411 | such a fan-out has every member terminal after 2 * (sum of the retry budgets) pumps |
| `Liveness.NonViableIsExact` | src/core/fanout.ts:260-280 | in every state of every run nonViable is true if and only if no continuation brings minViable members up |
| `Liveness.CompletableIffAcyclic` | src/core/fanout.ts:451-463 | some run completes all members if and only if the dependencies are known and acyclic |
| `FanOutMachine.Configure` | src/core/fanout.ts:193-210 | cap and delays are taken as given, none if absent or negative; the threshold is 1 if absent, not finite or below 1, the member count if above it (1 without members), and otherwise as given |
| `FanOutMachine.FanOut.constructor` | src/core/fanout.ts:193-218 | a new fan-out has all members pending, no attempts, no clocks, and an index by key that keeps the last member of a key |
| `FanOutMachine.FanOut.GateFor` | src/core/fanout.ts:452-463 | decides a member's state: a lost dependency or the stop flag skips, an incomplete or unknown one blocks |
| `FanOutMachine.FanOut.ViableCandidates` | src/core/fanout.ts:260-266 | counts the members neither failed nor skipped |
| `FanOutMachine.FanOut.ShouldStop` | src/core/fanout.ts:432-434 | true exactly when the stop policy meets a failure or the set is not viable |
| `FanOutMachine.FanOut.GatingPass` | src/core/fanout.ts:435-445 | one in-place pass equals the pass function, and reports dirty if and only if a status changed |
| `FanOutMachine.FanOut.ApplyGating` | src/core/fanout.ts:418-449 | the in-place loop ends, in the least fixpoint of the gating function |
| `FanOutMachine.FanOut.LaunchLoop` | src/core/fanout.ts:369-384 | the launch loop up to its next launch: first eligible member under cap and delays, or no launch |
| `FanOutMachine.FanOut.Pump` | src/core/fanout.ts:345-384 | reconcile, gate and scan up to the first launch; a re-entrant pump changes nothing |
| `FanOutMachine.FanOut.LaunchSettled` | src/core/fanout.ts:385-405 | records a launch result, re-gates after a terminal failure, stamps both clocks and goes on |
| `FanOutMachine.FanOut.MissingIndexes` | src/core/fanout.ts:317-325 | exactly the indexes whose member is neither running nor launching, increasing |
| `FanOutMachine.MissingIsExact` | src/core/fanout.ts:317-325 | the same of the list function, for every prefix |
| `FanOutMachine.FanOut.SurvivorIds` | src/core/fanout.ts:290-294 | the instance ids of running members in member order |
| `FanOutMachine.SurvivorsAreRunning` | src/core/fanout.ts:290-294 | an id is listed if and only if a running member holds it |
| `Instances.ActOwned` | src/core/client.ts:461-497 | every action (pump, creation, result, refusal, compensation, leak, death, restart) keeps ownership: ids held once, and every live instance held or stray |
| `Instances.InstancesConserved` | src/core/fanout.ts:350-405 | in every run each live instance that is no stray is held by exactly one member, strays by none, and live instances that are no strays never exceed the cap |
| `Instances.ConservedIffFaithful` | src/core/client.ts:461-497 | in every state of a run every live instance is held by a member, if and only if no list a pump read was stale about a live instance, no created instance outlived its failed launch, and no instance was started again that no member led to any more |
| `Instances.FaithfulRunsKeepTheCap` | src/core/fanout.ts:350-405 | in such a run there are never more instances alive than the cap |
| `Instances.StaleListOverrunsCap` | src/core/fanout.ts:350-363 | a run with a stale list that has two instances alive under a cap of one |
| `Instances.RestartOverrunsCap` | src/core/mock.ts:97-103 | a run without stale list or failed launch in which a completed member's stopped instance is started again, with two instances alive under a cap of one |
| `Instances.FanOutRunsOn` | src/core/fanout.ts:345-411 | whatever happens to the instances, the fan-out of a run is the one its pumps and launch results give, a launch that failed after its creation being a failed launch |
| `Drain.DrainedAtMostOnce` | src/core/jobarray.ts:213-236 | over every interleaving of any number of calls with pumps, an id is claimed if and only if it is in flight or reported terminated, exactly once over all calls |
| `Drain.ViableArraysAreLeftAlone` | src/core/jobarray.ts:213-218 | only the array's own instances are ever terminated, and none is claimed while the array is viable |
| `Drain.NoSurvivorForgotten` | src/core/jobarray.ts:218-234 | when a call is through, each survivor it was started for is in flight, reported terminated, or reported failed |
| `Drain.FailureReleasesClaim` | src/core/jobarray.ts:230-233 | a failed terminate is reported by its call and the id becomes claimable again |
| `Drain.NextCallClaims` | src/core/jobarray.ts:216-226 | the next call on a non-viable array claims or queues every running instance nobody has claimed |
| `Drain.RegisteredWhileSurvivors` | src/core/client.ts:260-278 | the array stays with the monitor loop while any member is recorded running |
| `Drain.EachCallOnce` | src/core/jobarray.ts:218-234 | in every run each call works through its list in order: what it terminated, reported failed or waits for is a part of the list it has passed, each entry at most once |
| `Drain.OutcomeReported` | src/core/jobarray.ts:224-234 | the outcome of a terminate is reported by its own call, as a success or as a failure, and the call goes on to a later survivor or ends |
| `Drain.DroppedIffComplete` | src/core/client.ts:260-278 | the monitor loop drops the array if and only if every member is completed, failed or skipped |
| `Drain.FanOutRunsOn` | src/core/jobarray.ts:198-236 | winding down leaves the pumps alone: the fan-out of a run is the one its own events give |
| `JobArrayMachine.JobArray.constructor` | src/core/jobarray.ts:149-158 | a new job array has claimed nothing |
| `JobArrayMachine.JobArray.GoOn` | src/core/jobarray.ts:218-226 | the loop skips claimed ids and claims the next one before it waits |
| `JobArrayMachine.JobArray.EnforceViability` | src/core/jobarray.ts:213-226 | a call starts with the survivors of a non-viable array, and with none of a viable one |
| `JobArrayMachine.JobArray.TerminateSettled` | src/core/jobarray.ts:227-236 | success is reported, failure releases the claim and is reported, and the loop goes on |
| `TopoSort.TopologicalSort` | src/core/queue.ts:133-167 | returns a permutation of the jobs with every dependency before its dependents, independent jobs first in declaration order, or fails, and then no such order exists (duplicate and unknown dependencies included) |
| `TopoSort.TellDependents` | src/core/queue.ts:154-158 | telling the dependents of a finished job brings every in-degree to the number of its dependencies still missing, and makes ready exactly those that reach zero |
| `TopoSort.OrderIffAcyclic` | src/core/queue.ts:161-166 | with known dependencies an order exists if and only if no chain of dependencies returns to its start |
| `TopoSort.CycleHasNoOrder` | src/core/queue.ts:161-166 | a cycle admits no order |
| `QueueBuild.ValidateQueue` | src/core/queue.ts:87-125 | accepts exactly the configs that meet every listed requirement and have no cycle, and otherwise reports the first problem in the source's order of checks |
| `QueueBuild.ProblemIsReal` | src/core/queue.ts:87-125 | no valid config has a problem that could be reported |
| `QueueRules.ValidIff` | src/core/queue.ts:95-131 | a config is accepted if and only if none of the thirteen errors is true of it, each stated by itself |
| `QueueRules.ReportedFirst` | src/core/queue.ts:95-131 | the error reported is true of the config, and none true of it comes earlier in the order of the checks: first the fields job by job, then the dependencies and the retry setting job by job, then the global timeout, the failure policy and the cycle |
| `QueueBuild.BuildQueue` | src/core/queue.ts:185-220 | succeeds exactly on valid configs, with the members in a dependency order, each its job setting by setting (key, command, dependencies, position, size, timeout by its precedence, attempts as the retry setting says or one), and the id and name by their precedence |
| `QueueBuild.QueueIsOrdered` | src/core/queue.ts:192-217 | every dependency of a built member stands at an earlier position, so its fan-out is ordered and acyclic |
| `QueueBuild.BuiltQueueGatesInOnePass` | src/core/queue.ts:241-249 | from any statuses, gating a built queue's fan-out is one pass |
| `QueueBuild.BuiltQueueNeverDeadlocks` | src/core/queue.ts:241-249 | in every run of a built queue an unstarted job means that one is ready or running |
| `QueueBuild.BuiltQueueFinishes` | src/core/queue.ts:241-249 | with running instances gone by the next pump and both delays elapsed all jobs are terminal after 2 * (sum of max(1, maxAttempts)) pumps |
| `QueueRuns.JobRetries` | src/core/queue.ts:213-217 | in every run a job of a built queue is launched at most as often as its retry setting says, once without one, fails only when it has been launched as often, and waits only while it may be launched again |
| `QueueRuns.JobOrder` | src/core/queue.ts:192-217 | a job that has been launched has every job its config names as a dependency at an earlier position, completed |
| `QueueRuns.EachJobOnce` | src/core/queue.ts:192-217 | every job is run by exactly one member |
| `QueueRuns.QueueLimits` | src/core/queue.ts:241-249 | at most maxConcurrent jobs run or launch at once, and launches are at least launchDelayMs apart, as the options ask |
| `QueueRuns.FailureStopsQueue` | src/core/queue.ts:241-249 | under on_failure stop nothing is launched after a job has failed |
| `QueueRuns.FailureSkipsDependents` | src/core/queue.ts:241-249 | otherwise a job is skipped only after a job its config names failed or was skipped, unless no job is left |
| `QueueBuild.ValidatedTimeoutAtLaunch` | src/core/queue.ts:96-99 | a validated timeout is readable as a tag, and the parser of launch durations refuses it if and only if it is signed, padded or above the ceiling |
| `LaunchGuard.AdmitIff` | src/core/client.ts:433-461 | for every launch input and provider: the launch goes ahead if and only if it would with an hour of lifetime, its lifetime reads, and it has one or needs none; the lifetime is then the one read |
| `LaunchGuard.AdmittedIsValid` | src/core/client.ts:433-461 | an admitted launch is one the tag builder does not refuse |
| `LaunchGuard.RefusedIffDue` | src/core/client.ts:433-461 | a launch is refused if and only if some refusal is due, each stated by itself of the input and the provider, and the one given is due |
| `LaunchGuard.AdmittedAsAsked` | src/core/client.ts:609-647 | an admitted launch has the four durations asked for, none for an absent, empty or zero one, and everything else as given |
| `QueueLaunch.JobLaunchIff` | src/core/queue.ts:192-217 | the launch of a validated job is refused if and only if its other inputs are in the way, or its timeout is signed, padded or above the ceiling, or is zero where the launch needs a lifetime; otherwise its lifetime is the validated timeout |
| `QueueLaunch.JobLifetime` | src/core/queue.ts:192-217 | a launched job has in the tags the provider reads the deadline launch time plus timeout, cut to its millisecond; nothing ever ends it for its age if and only if the timeout is zero |
| `QueueLaunch.ZeroQueueIsValid` | src/core/queue.ts:96-99 | a queue of one job with the timeout 0s is valid |
| `QueueLaunch.ZeroJobRefused` | src/core/bounds.ts:87-109 | its job is refused as unbounded by a real provider without other bounds |
| `Duration.ParseDurationLoop` | src/core/duration.ts:20-47 | the matching loop with its running total equals parsing the string into segments and adding them up |
| `Duration.FormattedReadsAs` | src/core/duration.ts:20-74 | for every number of milliseconds, fractional and negative ones included, reading the written duration gives the nearest whole number |
| `Duration.DurationRoundTrip` | src/core/duration.ts:20-74 | a duration comes back from its text if and only if it is a whole number of milliseconds |
| `Duration.FormattedShape` | src/core/duration.ts:53-74 | a written duration is its sign and its parts, with nothing to trim and a minus exactly for negative values |
| `DurationText.FormattedWhole` | src/core/duration.ts:53-74 | a whole number of milliseconds is written as its hours, minutes below 60 and seconds below 60, each left out where it can be |
| `DurationText.FractionShape` | src/core/duration.ts:71-74 | the decimals of the seconds are at most three and end in no zero |
| `Duration.ParseLifetimeLoop` | src/core/duration.ts:114-143 | the slicing loop returns the total, or the first error it meets, an overflow before any later one |
| `DurationUnits.TagUnits` | src/core/duration.ts:3-47 | a number with ms reads as the number itself, and with s as 1000, m as 60 s, h as 60 m, ms as 1000 us (under either name) and us as 1000 ns of the same number |
| `DurationUnits.LaunchUnits` | src/core/duration.ts:87-143 | at launch each number with each unit, days and both micro signs among them, lasts as long as it says, and is too large exactly from 2^63 nanoseconds on |
| `DurationGrammar.TagAccepts` | src/core/duration.ts:22-47 | white space, a sign or none, one number with a unit after another and white space read as the sum of the numbers, each in its unit, or as its negative |
| `DurationGrammar.TagAcceptsOnly` | src/core/duration.ts:22-47 | nothing else reads as a tagged duration, but a bare zero |
| `DurationGrammar.LaunchAccepts` | src/core/duration.ts:106-141 | one number with a unit after another, days included and a digit on one side of the point enough, is a launch duration of their sum, unless that is 2^63 nanoseconds or more |
| `DurationGrammar.LaunchAcceptsOnly` | src/core/duration.ts:106-141 | nothing else is a launch duration, but a bare zero |
| `Duration.ParsersAgree` | src/core/duration.ts:114-143 | every unsigned string without surrounding white space that the tag reader accepts is accepted at launch with the same value, unless above the ceiling |
| `Duration.LaunchInputIff` | src/core/duration.ts:114-143 | of the strings the tag reader accepts, launch accepts exactly the unsigned, unpadded ones within the ceiling |
| `Duration.SignedIsReadButNotLaunched` | src/core/duration.ts:115-119 | a signed duration the tag reader takes and launch refuses |
| `Duration.FormattedIsLaunchInput` | src/core/duration.ts:105-143 | a written non-negative duration within the ceiling is a launch input of that many whole milliseconds |
| `JsonText.SortEntriesSorted` | src/core/gojson.ts:123-124 | keys that are distinct come out in strictly increasing code unit order |
| `JsonText.SortedKeysUnique` | src/core/gojson.ts:123-124 | the same keys in increasing order are the same list |
| `KeyOrder.OrdersAgreeIff` | src/core/gojson.ts:101-105 | for different well-formed keys code unit order is the byte order of UTF-8 if and only if they do not first differ in half a surrogate pair against a unit from U+E000 on, where it is the opposite |
| `KeyOrder.PlainKeysAgree` | src/core/gojson.ts:101-105 | for keys below the surrogates, ASCII among them, the two orders are the same |
| `KeyOrder.OrdersPart` | src/core/gojson.ts:101-105 | two keys in the opposite order |
| `GoJson.GoJsonStringLoop` | src/core/gojson.ts:25-78 | the index loop appends, character by character, what the escaping function gives, surrogate pairs together |
| `JsonEscapes.UnitText` | src/core/gojson.ts:32-77 | a code unit is written as its short form exactly if it is one of the seven that have one, in lower-case hexadecimal exactly if it is another control character, U+2028, U+2029, a lone surrogate (as U+FFFD) or, with HTML escaping, one of the three, and otherwise as it is |
| `JsonEscapes.SpelledOut` | src/core/gojson.ts:25-78 | a text is written character by character between two quotes: surrogate pairs as they stand, and every other code unit as it is written alone |
| `JsonEscapes.MarshalClean` | src/core/gojson.ts:106-125 | in any printed value stands no control character, U+2028, U+2029 or lone surrogate, and with HTML escaping none of its three characters |
| `JsonLayout.ArrayLayout` | src/core/gojson.ts:115 | an array is its elements' texts with one comma between two, in brackets, and no more |
| `JsonLayout.StructLayout` | src/core/gojson.ts:116-122 | a struct is its names and values with a colon in each and a comma between two, in braces, and no more |
| `JsonLayout.ObjectLayout` | src/core/gojson.ts:123-124 | a plain object prints as the struct of its entries in increasing order of their keys |
| `JsonLayout.PlainNumberText` | src/core/gojson.ts:110-114 | an integer below 10^21 prints as its sign, digits and zeros |
| `JsonLayout.LargeNumberText` | src/core/gojson.ts:110-114 | a larger one prints with a point after its first digit, if there are more, and a signed exponent after a small e |
| `JsonRoundTrip.StringReadsBack` | src/core/gojson.ts:25-78 | a printed string, wherever it stands, reads back with each lone surrogate replaced by U+FFFD, under both escaping modes |
| `JsonRoundTrip.NumberReadsBack` | src/core/gojson.ts:110-114 | a printed integer reads back as itself, in plain and in exponent form |
| `JsonRoundTrip.ValueReadsBack` | src/core/gojson.ts:106-125 | every value the printer accepts reads back, wherever its text stands, as its normal form |
| `JsonRoundTrip.MarshalReadsBack` | src/core/gojson.ts:106-125 | parsing a whole printed text by the grammar of RFC 8259 gives the value with lone surrogates repaired and plain objects by key |
| `JsonCanonical.SamePrintSame` | src/core/gojson.ts:123-124 | values equal up to the insertion order of object keys print the same text |
| `JsonCanonical.TextDeterminesValue` | src/core/gojson.ts:106-125 | equal texts come from values with equal normal forms |
| `JsonCanonical.PrintableIff` | src/core/gojson.ts:110-114 | the printer throws exactly on values that hold a number that is no finite integer |
| `JsonRecords.MembersReadBackIff` | src/core/gojson.ts:115-125 | reading a printed value back into records, where a name has one value, loses a member at some depth if and only if two keys of an object are the same after repair |
| `JsonRecords.RecordReadsBack` | src/core/gojson.ts:106-125 | when the repaired keys stay apart the record read is the one printed with each text repaired |
| `JsonRecords.WellFormedReadsBack` | src/core/gojson.ts:106-125 | without lone surrogates, and with distinct names in every object and struct, it is the very record printed |
| `JsonRecords.HalvesCollide` | src/core/gojson.ts:61-74 | an object with the two halves of a surrogate pair as keys, which loses a member |
| `LaunchConfig.EncodeLaunchConfig` | src/core/launchconfig.ts:106-125 | refuses exactly when some key is no setting, naming the first one; makes no object exactly when no value is left; otherwise the canonical body of the settings kept and its digest |
| `LaunchConfig.SettingIff` | src/core/launchconfig.ts:41-112 | a key is a setting if and only if it spells one of the names, code unit by code unit |
| `LaunchConfig.KeptExactly` | src/core/launchconfig.ts:109-115 | exactly the settings with a value are kept |
| `LaunchConfig.BodyLayout` | src/core/launchconfig.ts:117-123 | the body is the schema 1 and the settings as an object, with no space and no line feed |
| `LaunchConfig.BodyIffSettings` | src/core/launchconfig.ts:96-125 | for well-formed texts two bodies are equal if and only if the settings are, in whatever order |
| `LaunchConfig.DigestIffSettings` | src/core/launchconfig.ts:96-125 | so are the digests, for any hash under which the two bodies do not collide |
| `AgentMessage.SetUint32` | src/ssm/agent-message.ts:118-131 | writes the value modulo 2^32 in four bytes and nothing else |
| `AgentMessage.SetU64` | src/ssm/agent-message.ts:158-163 | the two half writes are the eight big-endian bytes of the value modulo 2^64, and nothing else changes |
| `AgentMessage.WriteType` | src/ssm/agent-message.ts:120-122 | the type field ends up cut to 32 bytes or filled with spaces |
| `AgentMessage.WriteUuidSwapped` | src/ssm/agent-message.ts:99-103 | the two halves of the UUID change places, and nothing else changes |
| `AgentMessage.Serialize` | src/ssm/agent-message.ts:112-135 | the buffer is the wire layout field after field, 120 bytes and the payload; a type that overruns the buffer or an invalid UUID is an error |
| `AgentMessage.UuidRoundTripIff` | src/ssm/agent-message.ts:82-95 | a UUID comes back from its bytes if and only if it is canonical |
| `AgentMessage.TypeReadsBackIff` | src/ssm/agent-message.ts:120-140 | a type comes back from its field if and only if it fits, is trimmed and has no NUL |
| `AgentMessage.FrameReadsBack` | src/ssm/agent-message.ts:138-154 | a frame at any offset of a larger buffer reads as the message with each field reduced to its width |
| `AgentMessage.RoundTripIff` | src/ssm/agent-message.ts:112-168 | deserialize undoes serialize, at any offset, exactly for the messages that fit the frame |
| `FrameLayout.FrameBytes` | src/ssm/agent-message.ts:112-135 | every byte of a frame: header length 116, type in 32 bytes, big-endian version, date, number and flags, the UUID with its second half first, digest, payload type and length, payload |
| `FrameLayout.UuidDigits` | src/ssm/agent-message.ts:92-95 | a UUID is written in lower-case hexadecimal, high half first, with hyphens after 8, 12, 16 and 20 digits |
| `SsmSession.RunInv` | src/ssm/session.ts:139-204 | over every interleaving: numbers are 0, 1, 2, …; each message reaches the socket at most once; every input accepted has exactly one number or still waits; queued input keeps its order, and so does later input |
| `SsmSession.NoInputBeforeLive` | src/ssm/session.ts:181-187 | before the session is live only replies to the agent have numbers |
| `SsmSession.TypedIsSent` | src/ssm/session.ts:181-199 | what is typed is what is sent, but a lone line feed as a carriage return: at once with a live session, and queued last before |
| `SsmOrder.AllNumberedIffTurns` | src/ssm/session.ts:181-193 | from every live state, after every continuation, whatever further input it brings: all input accepted has its number if and only if the flush has had as many turns as there was input left in it |
| `SsmOrder.TurnComes` | src/ssm/session.ts:189-193 | as long as anything is left to flush, a turn is one serialized frame away |
| `SsmOrder.OrderKeptIffQuiet` | src/ssm/session.ts:181-193 | whatever happens without further input, no queued input gets its number after later input, if and only if no input was given while a flush had something left to number |
| `SsmOrder.QuietInput` | src/ssm/session.ts:181-193 | in such a run the input numbered so far, followed by what is queued, is the input accepted, in order |
| `SsmSession.LaterInputOvertakes` | src/ssm/session.ts:181-193 | with two inputs queued, a third one given during the flush gets its number before the second |
| `SsmSession.SsmSessionClient.SendData` | src/ssm/session.ts:163-175 | up to the wait for the digest: takes the next number and makes the message |
| `SsmSession.SsmSessionClient.FlushTurn` | src/ssm/session.ts:189-193 | one turn of the flush numbers the next queued item, or ends the flush |
| `SsmSession.SsmSessionClient.MarkSessionReady` | src/ssm/session.ts:139-143 | the first call takes the whole queue over to the flush, further calls change nothing |
| `SsmSession.SsmSessionClient.Input` | src/ssm/session.ts:196-199 | a lone line feed becomes a carriage return; before ready the input is queued, afterwards numbered |
| `Params.ExpandGrid` | src/core/params.ts:48-68 | the nested loops give the combinations over the sorted keys |
| `Params.ComboAt` | src/core/params.ts:52-62 | combination c holds, for each key, the value at the digit of c in that key's place, and no other key |
| `Params.GridIsMixedRadix` | src/core/params.ts:48-68 | there are as many combinations as the product of the list lengths, enumerated as mixed-radix numerals, the last sorted key fastest |
| `Params.GridOrderIsIrrelevant` | src/core/params.ts:49 | the order in which the keys were given does not matter |
| `Params.NothingLeftIff` | src/core/params.ts:48-68 | a grid leaves no combination if and only if it has no key or a key with an empty list |
| `Params.ResolveMembers` | src/core/params.ts:75-93 | explicit sets first, then the grid, each over the defaults and numbered in order; an error exactly when there are none |
| `Tags.CountLaunchTags` | src/core/tags.ts:93-102 | the loop counts the tags that are no settings, one for the user name if absent and one for the config object if there is a non-empty setting |
| `Tags.BuildSweepTags` | src/core/tags.ts:265-283 | the sweep block and the first parameters of the sorted list, as many as the budget leaves |
| `TagBuild.BuildLaunchTags` | src/core/tags.ts:179-253 | the record filled statement by statement is the table of tags key by key, the sweep last within the budget; refused exactly when the idle CPU threshold is out of range |
| `TagBudget.KeptCount` | src/core/tags.ts:93-102 | what is counted before the sweep is what will be sent of it |
| `TagBudget.TagsFit` | src/aws/ec2.ts:175-212 | of any tag set built that way, fixed tags and reserve are at most 44, and the total is the lesser of 50 and what was asked for |
| `TagBudget.EveryLaunchFits` | src/aws/ec2.ts:203-212 | for every spec and identity the tags sent and the slots reserved come to min(50, fixed + parameters), at least min(6, parameters) of them survive, and the limit check passes, for the stand-in identity and for the real one |
| `TagBudget.PreflightSettings` | src/aws/ec2.ts:172-180 | the settings moved to the config object are the same for every identity |
| `TagDecode.ConfigDecodes` | src/core/tags.ts:295-337 | reading all the tags of a launch, as the in-memory provider does, gives the lifecycle settings of the spec, durations to the nearest millisecond, the deadline cut to it, and those that are off at their defaults, whatever other blocks there are |
| `TagDecode.RecordedIff` | src/core/tags.ts:211-239 | a positive duration is recorded as it is if and only if it is whole, and is lost if and only if it is below half a millisecond |
| `TagDecode.HooksDecode` | src/core/tags.ts:450-496 | from all the tags the hooks come back, timeouts and correlation only with what they belong to |
| `TagDecode.SentConfigDecodes` | src/aws/ec2.ts:172-212 | reading the tags a real launch sends gives the same lifecycle settings but for the idle CPU threshold, which is unset |
| `TagDecode.SentHooksDecode` | src/aws/ec2.ts:172-212 | of the hooks, the tags sent give the pre-stop command and its timeout alone |
| `TagDecode.SentMembershipDecodes` | src/aws/ec2.ts:458-489 | job array, MPI declaration and sweep are read of the tags sent as of all the tags |
| `TagDecode.NothingLostIff` | src/aws/ec2.ts:255-261 | lifecycle settings and hooks all come back from the tags sent if and only if the launch has no config object |
| `TagDecode.JobArrayDecodes` | src/core/tags.ts:374-442 | the job array comes back unless its id is empty |
| `TagDecode.MpiDecodes` | src/core/tags.ts:395-422 | the MPI declaration comes back if enabled, a process count that is not positive dropped |
| `TagDecode.SweepDecodes` | src/core/tags.ts:265-366 | the sweep comes back unless its id is empty, with exactly the sorted prefix of its parameters that fitted |
| `TagTable.BaseTags` | src/core/tags.ts:185-232 | every launch is tagged as managed and Linux, with its name, user, DNS label, one-time Spot request and session timeout where it has them |
| `TagTable.IdentityTags` | src/core/tags.ts:104-178 | a launch with an identity carries its seven tags, the account name if there is one, and one without none of them |
| `TagTable.MpiTags` | src/core/tags.ts:383-405 | an enabled MPI declaration is written, with its process count if that is positive, and a disabled one is not |
| `TagTable.ReservedTags` | src/core/tags.ts:590-652 | a slot is kept for each of the four tags spored always writes, and two more exactly with a DNS name |
| `TagTable.SettingsLeave` | src/core/launchconfig.ts:46-85 | a tag leaves the tags exactly when its name is one of the launch config's settings |
| `TagTable.SentExactly` | src/aws/ec2.ts:172-212 | a launch sends its user name, the digest of its config object exactly if some setting is not empty, none of the settings, and every other tag as it is |
| `Lifecycle.ExtensionDecodes` | src/core/lifecycle.ts:98-116 | the tags an extension writes change what is read of the TTL pair, the deadline cut and the TTL rounded to its millisecond, and nothing else, for any settings |
| `Lifecycle.ExtensionLands` | src/core/lifecycle.ts:98-116 | an extension lands exactly at max(old deadline, now) + by, cut to its millisecond; the pair agrees if and only if the fraction of by is below one half; the TTL rule fires at that moment if and only if an overdue instance got less than a millisecond |
| `LifecycleRules.CompletionDecides` | src/core/lifecycle.ts:130-142 | a completion signal that finds an on-complete setting decides before every other rule: exit and terminate terminate, stop stops, hibernate hibernates |
| `LifecycleRules.FirstRuleDecides` | src/core/lifecycle.ts:123-212 | without one the first of TTL, cost limit and idleness decides, told by the settings and the clock, and nothing does for an instance that is not running |
| `LifecycleRules.SignalledState` | src/core/mock.ts:85-106 | a completion signal puts the record in the state its on-complete setting names, and changes nothing else |
| `LifecycleRules.TtlAlone` | src/core/lifecycle.ts:51-116 | an instance tagged with a TTL and no deadline has it that long after the launch, and is extended from there |
| `LifecycleRules.LaunchesInOrder` | src/core/mock.ts:62-69 | of any launches in a row each that is not refused gets the next id, runs from then on, and has the settings its tags record; no other id is given |
| `LifecycleRules.TickLaunches` | src/core/client.ts:215-278 | so it is of the launches of a tick, for each new instance the tick does not wind down |
| `Fleet.ExtendedLands` | src/core/client.ts:531-569 | the same of an instance's record, whose other settings do not change but for the compute seconds, read back rounded |
| `Fleet.RunInv` | src/core/mock.ts:62-132 | in every run, for every instance, record and tags agree up to rounding, launch time plus TTL is the deadline or one millisecond more, and the compute clock is near |
| `FleetRuns.OnlyExtendMoves` | src/core/lifecycle.ts:51-116 | launches, stops, starts, hibernations, ticks and extensions of others leave an instance's deadline and TTL alone |
| `FleetRuns.ExtendMoves` | src/core/client.ts:531-569 | extend is refused exactly without a TTL or a positive duration, and otherwise lands at max(deadline, now) + by, cut to its millisecond, with the state unchanged |
| `FleetRuns.PairAgreesIff` | src/core/mock.ts:62-113 | in every run launch time plus TTL is exactly the deadline if and only if the duration last given, at launch or for an extension, has a fraction below one half |
| `FleetRuns.TickQuiesces` | src/core/client.ts:215-278 | after a tick, evaluating any instance again at the same time decides nothing, those just launched included, unless one was launched with a TTL below a millisecond; with no array drained, exactly then |
| `FleetRuns.NoOrphansAfterTick` | src/core/client.ts:215-278 | after every tick no instance is an orphan, whatever the grace |
| `FleetRuns.StepKeepsTerminated` | src/core/mock.ts:91-106 | a step keeps a terminated instance terminated if and only if it is no stop, start or hibernate of it, nor a signal to one whose on-complete action stops or hibernates |
| `FleetRuns.TerminatedStays` | src/core/mock.ts:91-106 | an instance terminated at some point stays so to the end of the run if and only if no later step is such a request |
| `FleetRuns.StartRevives` | src/core/mock.ts:97-103 | any launch, terminated and started, runs again |
| `FleetRuns.CostOvershoot` | src/core/lifecycle.ts:160-172 | in a run that does not revive the instance, a tick that terminates it for its cost limit has added the milliseconds since the last one, and the compute seconds, priced by 3600 of them, cost at least the limit and less than the limit and the price of the tick and half a second |
| `ComputeClock.ClockStaysNear` | src/core/mock.ts:108-132 | in every run the compute seconds are, in milliseconds, the sum over the ticks that found the instance running of the time since the last tick, to within 500 for each extension asked for |
| `ComputeClock.ClockIsExact` | src/core/mock.ts:122-132 | without an extension they are that time exactly |
| `Backstops.TickTerminatesIff` | src/core/lifecycle.ts:123-212 | in every run a tick terminates an instance if and only if it is running and its TTL or cost limit fires, or its array is drained |
| `Backstops.IdleClockIsLaunch` | src/core/mock.ts:97-132 | in every run the last activity of every instance is its launch: neither a start nor any other step re-arms the idle clock |
| `Backstops.RestartSurvivesIff` | src/core/mock.ts:97-103 | a started instance is still running after the next tick if and only if it is not drained, neither its TTL nor its cost limit fires, and its age since the launch is below its idle timeout |
| `Backstops.StoppedAgain` | src/core/mock.ts:97-103 | for every launch past its idle timeout: the tick, a start and the next tick leave it not running both times, and without TTL and cost limit stopped, or hibernated where asked for, both times |
| `FleetMachine.MockProvider.Launch` | src/core/mock.ts:62-69 | a launch adds one running instance with decoded tags, and refuses what the tag builder refuses |
| `FleetMachine.MockProvider.Request` | src/core/mock.ts:85-106 | terminate, stop, start and hibernate set the state whatever it was, and throw exactly on an unknown id |
| `FleetMachine.MockProvider.SimTick` | src/core/mock.ts:122-132 | exactly the running instances accrue the elapsed time, in the record and rounded in the tag |
| `FleetMachine.SpawnClient.Monitor` | src/core/client.ts:215-250 | the clock moves, time accrues, and each instance has its one decision applied |
| `FleetMachine.SpawnClient.Tick` | src/core/client.ts:215-278 | a whole tick is the tick step of the fleet runs |
| `FleetMachine.SpawnClient.Extend` | src/core/client.ts:531-569 | returns the new deadline exactly when there is a TTL and a positive duration, and writes the pair |
| `Orphans.FindOrphans` | src/core/orphans.ts:36-52 | exactly the live instances past deadline and grace, each once, most overdue first and equals in list order |
| `LifecycleRules.TenMinutes` | src/core/orphans.ts:18-52 | with the default grace an instance is overdue exactly when it is live, has a deadline and is more than ten minutes past it |
| `Orphans.UnwarnedIsTracked` | src/core/bounds.ts:87-120 | a real launch that is neither refused nor warned about has, in the tags it sent, a positive deadline, and is an orphan exactly when live past deadline plus grace; any other one never is |

## Left out

- Events, warnings and messages: the text of progress callbacks, summaries, errors, evaluation warnings and bound verdicts; only which error, rule and verdict is modelled.
- Floating point: durations and other quantities are exact reals, and integers above 2^53 are exact.
- Duration.DurationRoundTrip: reals where the source has doubles, which do not give back every whole number of milliseconds: 1001 ms is written 1.001s and read as 1.001 * 1000, which is 1000.9999999999999.
- Duration.FormattedReadsAs: reals where the source has doubles, which decide a fraction of exactly one half: 1000.5 ms is 1.0005 s, as a double 1.000499..., so toFixed(3) writes 1s and not 1.001s.
- FleetRuns.PairAgreesIff: the same reals, so at a fraction of exactly one half the double decides: with 1000.5 ms the pair agrees.
- Fleet.RunInv: assumes clocks and times of whole milliseconds; a clock stepped by 1.5ms or scaled by a fractional speed gives launch times whose tags are cut to the millisecond.
- A job's maxAttempts is an integer or absent; the source also takes 1.5, which allows two attempts, and NaN, which passes validation and allows one.
- Number-to-string conversion and timestamps: a number tag or an instant is kept as what it was printed from; a JSON number is its shortest decimal, negative zero being zero.
- SHA-256: an arbitrary function for the config object, an arbitrary value in the frame.
- Slugs of DNS and account names, the base-36 account id: parameters.
- generateQueueId: the id stamped from the clock is a parameter of BuildQueue.
- Launch inputs of queue members beyond lifetime, command, position and retries (environment parameters, default and per-job overrides).
- topologicalSort with duplicate job ids: its callers have rejected those.
- Compensation is modelled for fan-out launches (Instances); a fleet's launches all succeed, as the in-memory provider's do.
- A monitor tick is one step: what happens between its awaits is modelled for pumps and drains (FanOutRuns, Drain), not for a fleet.
- Refusals at launch for plugins, oversized user data or a missing identity; whether a profile is a nested-spawn one is a parameter (LaunchGuard).
- Pending and shutting-down instances of the real provider, its AWS calls and user data; a job array made without a client, which never drains.
- Settings split off the tags are modelled by key; their values go to the config object unread.
- A fractional number of MPI processes, which the source floors.
- AgentMessage.Serialize: takes the bytes of the message type; the round trip is stated for ASCII types, as the protocol's are, and other text encodings are not modelled.
- Parsing of the grid shorthand, of scalars and of parameter files.
- The WebSocket itself, acknowledgements, terminal output, and a failing socket.
- The reference JSON reader keeps repeated members as they stand; what a reader into records makes of them is JsonRecords.
- buildJobArray, sweeps and their status views: they only fill records.
- Command line, user interface, notices, plugins, authentication, DNS, quotas and the other network clients.
