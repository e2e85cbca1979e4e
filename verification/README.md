# Carrier gateway: verified model

A Dafny model of the lock-free and concurrent core of the carrier gateway, a service that
asks many insurance carriers for a quote in parallel, hedges slow ones, removes duplicates,
sorts by premium and caches the outcome. `dafny verify dfyconfig.toml` checks everything.

| part | files | what it is |
|---|---|---|
| circuit breaker | `breaker_history.dfy`, `breaker.dfy` | the counter machine for calls that do not overlap, a specification that looks only at the history of calls, and the breaker as a class |
| | `breaker_interleaved.dfy` | any number of overlapping calls, one step per atomic operation |
| | `breaker_runs.dfy` | what is said of whole runs: their clock, the number of calls in progress, the three guarantees one expects |
| | `breaker_bridge.dfy`, `breaker_serial.dfy` | runs in which calls do not overlap are exactly the sequential histories, and keep the guarantees |
| | `breaker_paths.dfy` | which way a call goes, told by what its operations found: who may invoke fn, who is rejected, what becomes of each outcome |
| | `breaker_overlaps.dfy`, `breaker_recovery.dfy` | runs with two calls in progress that lose each guarantee, and the exact condition; recovery from every state that any interleaving reaches |
| latency estimate | `ema.dfy`, `ema_interleaved.dfy` | the moving average over the reals, the tracker as a class, and the compare-and-swap retry loop under every interleaving |
| fan-out | `fanout.dfy` | primaries, hedge monitor, hedges, the goroutine that closes the channel, the channel and the collector as one transition system |
| | `fanout_safety.dfy`, `fanout_theorems.dfy`, `fanout_hedges.dfy`, `fanout_carriers.dfy`, `fanout_progress.dfy` | its invariant; what follows for every run about channel, result, hedges and carriers; freedom from deadlock with a linear bound on steps |
| | `fanout_answers.dfy`, `fanout_scans.dfy`, `fanout_choices.dfy` | what becomes of every adapter's answer; the monitor's scans; what each goroutine may do next, and that nothing else is excluded |
| pieces of it | `collector.dfy`, `selection.dfy`, `call_carrier.dfy`, `carrier_paths.dfy`, `tally.dfy` | deduplication and sorting, eligibility and hedge candidates, one carrier call and its agreement with the fan-out's steps, sums over processes and sizes of sets |
| quote cache | `quote_cache.dfy` | the table with insert-if-absent, reads that skip expired rows, and the sweep |
| retry loop | `retry.dfy` | the HTTP client's attempts and its 64-bit back-off |

In the concurrent models a run is a sequence of actions, each enabled in its turn, and
`Reaches(cfg, actions, s)` says that the run ends in `s`; every theorem about them is for all
`actions` and `s`. Logs, commit orders and lists of sends are history: no step depends on them.

Where the code and its documentation disagree the model follows the code:

- `docs/runbook.md:223` has one successful probe close the breaker; the code asks for
  `SuccessThreshold` of them (`internal/circuitbreaker/breaker.go:170`), and so does the model.
- The comment on `MaxRetries` offers 0 to disable retries
  (`internal/adapter/http_carrier.go:25-27`); the code turns 0 into 3. See
  `Retry.WithDefaults`.
- The comment on `hedgeMonitor` says it exits when all pending slots are resolved
  (`internal/orchestrator/hedging.go:130`); pending carriers are a snapshot that no answer
  changes, so it exits on cancellation or once every pending carrier has been hedged. See
  `MonitorPersists`, `ScansAreWhole` and `LateHedgeExactly`.

Properties one may expect that do not hold, with what does:

- The breaker does not always stay Open for `OpenTimeout`, its gauge need not show its state at
  rest, and a close need not be earned by the successes of its own HalfOpen episode. The exact
  condition is on the number of calls in progress: for every configuration, the runs with at
  most m calls in progress all have the property if and only if m is at most 1
  (`OpenLastsExactly`, `GaugeShowsExactly`, `ClosesEarnedExactly`). One half is that such runs
  are the sequential histories (`SerialRunsAreSequential`, `SerialRunsAreSafe`); the other is a
  run with two calls in progress, on a clock that never goes back (`OpenMayBeSkipped`,
  `GaugeMayBeStale`, `CloseMayBeUnearned`). What remains true of every interleaving is
  `ProbeSlotIsExclusive`, `CallsAreAdmitted`, `EveryOutcomeIsCounted`, `TransitionsBalance`, `CountersAreHistories`, `TransitionsAreEarned`,
  `FnAtMostOnce` and `NeverWedged`.
- A hedge may fire for a carrier that has answered: `LateHedgeExactly` says exactly when.
- A quote that was saved is not always found: `SavedIsFoundExactly` says exactly when, and
  `ExpiredRowBlocks` gives the family in which it is not.
- The back-off delay can wrap around: `DelaysExactlyWhenTheyFit` says exactly when.

## Model

| member | source | states |
|---|---|---|
| BreakerHistory.WithDefaults | internal/circuitbreaker/breaker.go:68-86 | every configuration becomes usable, one that is usable already is kept, and the defaults are 5 failures, 1 success and 30 s |
| BreakerHistory.CountersExplained | internal/circuitbreaker/breaker.go:104-179 | after every prefix of every sequential run the counters mean what the history says, and the state is the mode that the history-only specification gives |
| BreakerHistory.RefinesHistory | internal/circuitbreaker/breaker.go:104-179 | call by call the counter machine has the specification's mode and invokes fn exactly when the specification does |
| BreakerHistory.TripsExactly | internal/circuitbreaker/breaker.go:131-146 | a call made while Closed trips the breaker if and only if it completes a row of FailureThreshold failing calls, all made while Closed |
| BreakerHistory.ClosesExactly | internal/circuitbreaker/breaker.go:150-179 | the breaker closes if and only if the call completes a row of SuccessThreshold successful probes; a failed probe re-opens it; a rejected call changes nothing |
| BreakerHistory.StaysOpen | internal/circuitbreaker/breaker.go:108-111 | after an opening, while nothing is invoked, the breaker is Open and remembers the instant of that opening |
| BreakerHistory.OpenLastsTheTimeout | internal/circuitbreaker/breaker.go:104-127 | in every sequential run on a clock that never goes back, fn is never invoked within OpenTimeout after any opening |
| BreakerHistory.Recovers | internal/circuitbreaker/breaker.go:150-179 | from every reachable state, once OpenTimeout has passed, SuccessThreshold successful calls in a row leave the breaker Closed |
| CircuitBreaker.Breaker.constructor | internal/circuitbreaker/breaker.go:68-86 | a new breaker is Closed, with defaults applied, its gauge seeded and no history |
| CircuitBreaker.Breaker.Execute | internal/circuitbreaker/breaker.go:104-127 | keeps: the slot is free, the gauge is the state, the recorded transitions are a legal path to it, the counters are those of the history; invokes fn exactly when admitted, returns fn's own error or ErrCircuitOpen, and records exactly the transitions from the old state to the new one, by way of HalfOpen if it was Open |
| CircuitBreaker.Breaker.ExecuteClosed | internal/circuitbreaker/breaker.go:131-146 | the closed path makes one step of the sequential machine and returns fn's own error |
| CircuitBreaker.Breaker.ExecuteHalfOpen | internal/circuitbreaker/breaker.go:150-179 | runs fn exactly if the slot is free, makes one step of the sequential machine and frees the slot; otherwise ErrCircuitOpen and nothing changes |
| BreakerInterleaved.ProbeSlotIsExclusive | internal/circuitbreaker/breaker.go:150-179 | in every interleaving at most one call holds the probe slot, the flag is 1 exactly if one does, and only the holder moves the state out of HalfOpen or changes `successes` |
| BreakerInterleaved.TransitionsBalance | internal/circuitbreaker/breaker.go:104-179 | in every interleaving the successful transitions balance according to the state, recorded metrics never exceed them, and with no call in progress they are the same multiset |
| BreakerInterleaved.CountersAreHistories | internal/circuitbreaker/breaker.go:131-146 | in every interleaving `failures` is the number of distinct failed calls counted since its last reset, and `successes` of distinct successful ones |
| BreakerInterleaved.TransitionsAreEarned | internal/circuitbreaker/breaker.go:131-177 | each trip is by a call whose own increment found at least FailureThreshold counted failures, each close by one that found at least SuccessThreshold counted successes |
| BreakerInterleaved.FnAtMostOnce | internal/circuitbreaker/breaker.go:104-179 | Execute invokes fn at most once; it returns fn's own outcome, or ErrCircuitOpen exactly if it did not invoke it |
| BreakerInterleaved.CallsAreShort | internal/circuitbreaker/breaker.go:104-179 | Execute is wait-free: in every interleaving a call performs at most 15 atomic operations |
| BreakerInterleaved.InvariantAlways | internal/circuitbreaker/breaker.go:104-179 | all of the interleaved invariants hold in every reachable state |
| BreakerPaths.CallsAreAdmitted | internal/circuitbreaker/breaker.go:104-179 | in every interleaving fn is invoked only by the call that found the slot free and took it, or by one whose first look at the state found Closed |
| BreakerPaths.TakenSlotRejects | internal/circuitbreaker/breaker.go:152-154 | a call that tries the slot while it is taken ends with ErrCircuitOpen, changes nothing and has never invoked fn, whatever the state is by then |
| BreakerPaths.RejectsExactly | internal/circuitbreaker/breaker.go:108-154 | ErrCircuitOpen comes exactly from an opening less than OpenTimeout ago or from a taken slot |
| BreakerPaths.EveryOutcomeIsCounted | internal/circuitbreaker/breaker.go:104-179 | in every interleaving every call that ran fn has had its outcome counted before it returns: after a first look at Closed a failure in `failures` and a success by clearing it; otherwise it has owned the slot, and a success is in `successes` |
| BreakerPaths.ReadsOneField | internal/circuitbreaker/breaker.go:104-179 | each operation of a call reads at most one of the breaker's fields: in two states that agree on it the call does the same and writes the same |
| BreakerPaths.LostSwaps | internal/circuitbreaker/breaker.go:113-177 | a swap that finds another state leaves no trace, and the call goes on to the slot or ends with its own outcome |
| BreakerBridge.SoloIsStep | internal/circuitbreaker/breaker.go:104-179 | the atomic operations of a call that is not overlapped amount to one step of the sequential machine, with the same verdict, the gauge written and the slot free |
| BreakerBridge.SequentialRunsAreInterleavings | internal/circuitbreaker/breaker.go:104-179 | every sequential history is one of the interleavings, with the same counters and verdicts, on a clock that never goes back and with never two calls in progress |
| BreakerSerial.SerialRunsAreSequential | internal/circuitbreaker/breaker.go:104-179 | every run with never two calls in progress is a sequential history: at rest the shared state is what the sequential machine makes of it, every call has the sequential verdict, the slot is free and the gauge shows the state; on a clock that never goes back its calls come one after the other |
| BreakerSerial.SerialRunsAreSafe | internal/circuitbreaker/breaker.go:104-179 | such a run keeps Open for OpenTimeout, leaves the gauge at the state and earns every close in its own episode |
| BreakerOverlaps.OpenMayBeSkipped | internal/circuitbreaker/breaker.go:108-119 | for every configuration a run with two calls in progress in which a probe invokes fn at the instant of the trip, because the opening instant is stored after the swap |
| BreakerOverlaps.GaugeMayBeStale | internal/circuitbreaker/breaker.go:135-138 | for every configuration a run with two calls in progress that ends at rest, Closed, with the gauge showing Open |
| BreakerOverlaps.CloseMayBeUnearned | internal/circuitbreaker/breaker.go:113-177 | for every configuration and every number of latecomers up to SuccessThreshold, a run with one more call in progress in which the breaker closes on that many successes too few of its episode |
| BreakerOverlaps.OpenLastsExactly | internal/circuitbreaker/breaker.go:108-136 | all runs with at most m calls in progress keep Open for OpenTimeout if and only if m is at most 1 |
| BreakerOverlaps.GaugeShowsExactly | internal/circuitbreaker/breaker.go:114-175 | all runs with at most m calls in progress leave the gauge at the state when they come to rest if and only if m is at most 1 |
| BreakerOverlaps.ClosesEarnedExactly | internal/circuitbreaker/breaker.go:150-179 | all runs with at most m calls in progress close only after SuccessThreshold successes of the episode if and only if m is at most 1 |
| BreakerRecovery.CallsCanEnd | internal/circuitbreaker/breaker.go:104-179 | from every state that any interleaving reaches, the calls in progress can be run to their ends, and then the slot is free |
| BreakerRecovery.NeverWedged | internal/circuitbreaker/breaker.go:104-179 | no race wedges the breaker: once those calls have ended, and if it is Open once `openedAt` is OpenTimeout old, SuccessThreshold calls made alone are all let through and leave it Closed when they succeed |
| Ema.Alpha | internal/orchestrator/hedging.go:51-57 | for every configuration the smoothing factor is strictly between 0 and 1: 2/(window+1) for a window above 1, the configured factor if there is no window and it is usable, and 0.1 otherwise |
| Ema.SeedIsTwiceTheHint | internal/orchestrator/hedging.go:44-68 | the estimate starts at twice the hint in whole milliseconds, truncated toward zero, in numbers |
| Ema.SinceIsElapsed | internal/orchestrator/hedging.go:170-173 | elapsed time is the difference of the instants, saturated at both ends of 64 bits |
| Ema.FoldCounts | internal/orchestrator/hedging.go:76-79 | `observations` counts the records |
| Ema.ClosedForm | internal/orchestrator/hedging.go:72-87 | the estimate is the sum of the contributions of seed and observations |
| Ema.TermIsWeighted | internal/orchestrator/hedging.go:75 | with r for 1-α, the contribution of the seed is r^n times it, and that of observation i of n is r^(n-i)·α times it |
| Ema.WeightsSumToOne | internal/orchestrator/hedging.go:75 | these weights add up to 1 |
| Ema.StaysInRange | internal/orchestrator/hedging.go:72-87 | the estimate stays within every interval that holds the seed and the observations |
| Ema.Monotone | internal/orchestrator/hedging.go:72-87 | raising the seed or any observation never lowers the estimate |
| Ema.ConstantInput | internal/orchestrator/hedging.go:72-87 | under constant input x the distance to x is exactly (1-α)^n times the initial distance |
| Ema.Converges | internal/orchestrator/hedging.go:72-87 | under constant input the estimate comes, and stays, within any ε of it |
| Ema.OverdueExactly | internal/orchestrator/hedging.go:99-173 | a carrier is found overdue if and only if its tracker had at least `warmup` records and the elapsed nanoseconds have reached a million times multiplier times their estimate |
| Ema.Tracker.constructor | internal/orchestrator/hedging.go:44-68 | the tracker starts at twice the timeout hint in whole milliseconds, stated in numbers, with nothing observed |
| Ema.Tracker.Record | internal/orchestrator/hedging.go:72-87 | the state stays the fold of everything recorded, with this latency in milliseconds appended, and the gauge gets the new estimate |
| Ema.Tracker.Threshold | internal/orchestrator/hedging.go:99-105 | the threshold in terms of what was recorded: none during warm-up, then multiplier times the fold |
| SwapLoop.Linearizable | internal/orchestrator/hedging.go:72-87 | in every interleaving of the retry loop the shared state is the fold of the committed updates in commit order, every finished call is committed exactly once with its own argument, and the gauge shows the state after some commit |
| SwapLoop.OrderOnlyGrows | internal/orchestrator/hedging.go:80 | commits are never undone or reordered |
| SwapLoop.RealTimeOrder | internal/orchestrator/hedging.go:72-87 | a call that finished before another began precedes it in commit order |
| SwapLoop.FailedSwapMeansProgress | internal/orchestrator/hedging.go:80-85 | a failed swap implies a commit by another call since the load |
| SwapLoop.RetriesBounded | internal/orchestrator/hedging.go:72-87 | in a run of N calls each retries at most N-1 times |
| SwapLoop.ReportsItsOwn | internal/orchestrator/hedging.go:80-87 | the gauge gets the state that the reporting call itself committed |
| SwapLoop.FailedSwapRetries | internal/orchestrator/hedging.go:80-87 | a failed swap changes nothing but the number of retries, and the call loads again |
| EmaInterleaved.RecordLosesNothing | internal/orchestrator/hedging.go:72-87 | after any interleaving of Record calls the estimate is the moving average of the committed latencies, and `observations` is their number |
| Collector.Collect | internal/orchestrator/orchestrator.go:214-234 | the loop with its `seen` set keeps the first arrivals, and kept plus discarded is received |
| Collector.KeepsExactlyFirstArrivals | internal/orchestrator/orchestrator.go:224-234 | the kept quotes have distinct carriers and are exactly the quotes whose carrier had not arrived before; no carrier is lost |
| Collector.StringOrderTotal | internal/orchestrator/orchestrator.go:240 | the string order is asymmetric and total |
| Collector.StringOrderTransitive | internal/orchestrator/orchestrator.go:240 | the string order is transitive |
| Collector.StringBeforeExactly | internal/orchestrator/orchestrator.go:240 | the string order is the lexical one: the first different character decides, or one string is a proper prefix of the other |
| Collector.OrderTotal | internal/orchestrator/orchestrator.go:236-241 | the order by premium and carrier is asymmetric, and total on different carriers |
| Collector.SortIsUnique | internal/orchestrator/orchestrator.go:236-241 | quotes of distinct carriers have only one ordered arrangement, so the sorting algorithm does not matter |
| Collector.SliceIsDetermined | internal/orchestrator/orchestrator.go:224-241 | the same first arrivals give the same slice, in whatever order they came |
| Collector.SortSorts | internal/orchestrator/orchestrator.go:236-241 | an ordered permutation always exists |
| Selection.FilterEligible | internal/orchestrator/orchestrator.go:266-287 | the nested loops compute the eligible carriers |
| Selection.EligibleExactly | internal/orchestrator/orchestrator.go:266-287 | a carrier is eligible if and only if it is configured, not seen Open and one of its capabilities is a requested line |
| Selection.EligibleInOrder | internal/orchestrator/orchestrator.go:266-287 | the eligible carriers come in the order of the configured ones, each position at most once |
| Selection.EligibleDistinct | internal/orchestrator/orchestrator.go:266-287 | distinct carriers stay distinct |
| Selection.SelectedIsBest | internal/orchestrator/hedging.go:232-253 | the candidate is selected if and only if it is allowed, no allowed one has a lower p95 or an equal p95 and a lower priority, and it is the first such; none is selected if and only if every other carrier is Open |
| Selection.SelectHedgeCandidate | internal/orchestrator/hedging.go:232-253 | the loop computes that candidate |
| CarrierCall.CallCarrier | internal/orchestrator/orchestrator.go:293-361 | a registered carrier records exactly one status: success if and only if the adapter was called and gave a quote, which is then recorded in the tracker and offered; timeout exactly for the two timeout errors, failed exactly for other errors, and an adapter's own circuit or rate-limit error under its own name; the breaker's and tracker's histories grow by exactly this call; nil is returned to the group on every path |
| CarrierPaths.CallsArePaths | internal/orchestrator/orchestrator.go:293-361 | every outcome of CallCarrier is that of a path of a primary's steps, with the same statuses and offered quote |
| CarrierPaths.PathsAreCalls | internal/orchestrator/orchestrator.go:293-361 | every path on which a primary settles is an outcome of CallCarrier |
| FanOutSafety.InvariantAlways | internal/orchestrator/orchestrator.go:141-261 | the fan-out's invariant holds in every state of every run |
| FanOutSafety.InvariantStep | internal/orchestrator/orchestrator.go:141-261 | every step of every goroutine keeps it |
| FanOutSafety.SentBounds | internal/orchestrator/orchestrator.go:163 | sends never exceed the channel's capacity, and whoever is about to send finds room |
| FanOutTheorems.ChannelIsSafe | internal/orchestrator/orchestrator.go:163-222 | no send after close, at most one close, never more than 2·n items, and whoever is about to send finds an open channel with room |
| FanOutTheorems.NobodyLeftBehind | internal/orchestrator/orchestrator.go:195-234 | when fanOut returns, all primaries, the monitor, all hedges and the closing goroutine have finished, and everything sent was received |
| FanOutTheorems.FailuresAreIsolated | internal/orchestrator/orchestrator.go:195-212 | an error returned by any goroutine would end the context of all, but none ever returns one; so while a primary is at work the group's context has ended if and only if the request's deadline has passed |
| FanOutTheorems.SuccessesAreReturned | internal/orchestrator/orchestrator.go:195-234 | if the deadline does not come before the primaries finish, every primary that recorded success has its carrier in the result |
| FanOutTheorems.ResultIsSound | internal/orchestrator/orchestrator.go:224-241 | the result is exactly the first quote sent by each carrier, one per carrier, by premium and then by carrier in lexical order, eligible carriers only |
| FanOutTheorems.ResultIsDetermined | internal/orchestrator/orchestrator.go:224-241 | runs with the same first arrivals return the same slice |
| FanOutTheorems.SendsAreAccountedFor | internal/orchestrator/orchestrator.go:224-234 | at the return, the quotes in the result and the discarded ones are as many as the primaries and hedges that sent |
| FanOutAnswers.ResultsAreAnswers | internal/orchestrator/orchestrator.go:195-241 | every quote returned is, unchanged, what an adapter answered to a primary, or what one answered to a hedge with its hedged mark set |
| FanOutAnswers.AnswersAreReturned | internal/orchestrator/orchestrator.go:195-241 | if the deadline does not come before the primaries have finished, every answer of an adapter to a primary is sent and its carrier is in the result |
| FanOutAnswers.HedgeAnswersAreReturned | internal/orchestrator/hedging.go:202-221 | if a hedge's adapter answered and the hedge had finished before the deadline and before the last primary, its answer is sent, marked as a hedge's, and its target's carrier is in the result |
| FanOutAnswers.HedgeAnswerGoesOut | internal/orchestrator/hedging.go:202-221 | while its context has not ended a hedge can take every answer of its target, and then it can only send it, marked as a hedge's |
| FanOutAnswers.AbandonedAlways | internal/orchestrator/hedging.go:208-221 | a hedge whose answer was not sent has had its context ended |
| FanOutChoices.PrimaryChoices | internal/orchestrator/orchestrator.go:293-361 | in every reachable state: limiter, breaker and adapter answer as they like, a quote can always be delivered without waiting, and can be given up exactly after the deadline |
| FanOutChoices.HedgeChoices | internal/orchestrator/hedging.go:202-221 | in every reachable state: the target answers as it likes, its quote can always be delivered without waiting, and can be given up exactly after the deadline or once the primaries have been waited for |
| FanOutChoices.MonitorChoices | internal/orchestrator/hedging.go:153-226 | in every reachable state: clock, breaker readings and tokens are free, a scan visits what it has still to visit in any order, and a stop between scans takes an ended context |
| FanOutChoices.OtherChoices | internal/orchestrator/orchestrator.go:195-241 | what main and the closing goroutine wait for, and that main can return some order once the closed channel is empty |
| FanOutCarriers.PreparedIsSetUp | internal/orchestrator/orchestrator.go:150-193 | what fanOut prepares from the configured carriers is what the protocol relies on, each pending carrier has the start and the threshold that were read for it, and distinct carriers give one primary each |
| FanOutCarriers.HedgeableInOrder | internal/orchestrator/orchestrator.go:165-186 | each hedge candidate has the identifier and the priority of a carrier and the p95 read for it, and they come in the order of the carriers, each position at most once |
| FanOutCarriers.PreparedHedgesAreDue | internal/orchestrator/orchestrator.go:187-193 | from the trackers to the hedges: if the threshold was read from the tracker after any interleaving of Record calls, a hedge fires only if at least `warmup` records were committed and the nanoseconds since the start that was read have reached a million times multiplier times their moving average |
| FanOutCarriers.OnlyQualifiedCarriers | internal/orchestrator/orchestrator.go:150-241 | every quote returned and every hedge fired is of a configured carrier that was not seen Open and can serve a requested line |
| FanOutTheorems.OneStatusEach | internal/orchestrator/orchestrator.go:293-361 | one status per primary with an adapter and none for the others, success if and only if the adapter gave a quote; their number is that of the eligible registered carriers |
| FanOutHedges.HedgesAreConserved | internal/orchestrator/hedging.go:151-221 | each trigger fires at most once; token acquisitions, hedge metrics and hedge goroutines follow one another and are equal once no firing is under way; at most n in all |
| FanOutHedges.HedgesGoToTheBest | internal/orchestrator/hedging.go:177-253 | the target is eligible, registered, not the trigger, not Open when inspected, and minimal among the allowed candidates |
| FanOutHedges.HedgesAreDue | internal/orchestrator/orchestrator.go:187-193 | a hedge fires only if, after any interleaving of Record calls from which its trigger's threshold was read, at least `warmup` records were committed and the elapsed time has reached multiplier times their moving average |
| FanOutHedges.MonitorPersists | internal/orchestrator/hedging.go:153-226 | in every run the monitor stops only after the deadline, after all primaries have ended and been waited for, or when the carriers that got a hedge are all the pending ones |
| FanOutHedges.ContextsEnd | internal/orchestrator/hedging.go:153-158 | the hedges' context ends exactly with the group's: at the deadline or when the group's Wait has returned |
| FanOutHedges.VisitExactly | internal/orchestrator/hedging.go:164-200 | a visit fires a hedge if and only if the carrier had none, is overdue, some candidate is allowed under the breakers as read and there is a token; it goes to the best candidate, and otherwise nothing but the scan changes |
| FanOutScans.ScansAreWhole | internal/orchestrator/hedging.go:160-226 | a scan visits no carrier twice and ends only when every pending carrier was visited, hedges carry the tick's instant, and the monitor stops after a scan if and only if every pending carrier had its hedge when the scan began |
| FanOutHedges.LateHedgeExactly | internal/orchestrator/hedging.go:164-173 | with ticks within a window of the carrier's start, a hedge can fire for a primary that has delivered its quote if and only if the carrier has an adapter, is overdue at the end of the window and there is another candidate |
| FanOutHedges.LateHedgeAtAll | internal/orchestrator/hedging.go:164-173 | with no window given, a late hedge is possible if and only if it is within some window |
| FanOutProgress.NeverStuck | internal/orchestrator/orchestrator.go:195-234 | in every reachable state short of the return some goroutine can make a step, without waiting for a tick or the deadline |
| FanOutProgress.MeasureDrops | internal/orchestrator/orchestrator.go:195-234 | a measure of at most 14n+11 drops on every step but a tick |
| FanOutProgress.RunsAreShort | internal/orchestrator/orchestrator.go:195-234 | a run with t ticks over n carriers has at most 13n+10+t(n+1) other steps |
| FanOutProgress.AlwaysFinishes | internal/orchestrator/orchestrator.go:195-261 | from every reachable state the goroutines can bring the fan-out to its return on their own in at most 14n+11 steps |
| FanOutProgress.FairRunsAreShort | internal/orchestrator/orchestrator.go:195-261 | a run that does some work in every k consecutive ticks has fewer than (13n+11)·k ticks, and a bounded number of steps in all |
| QuoteCache.Repository.Save | internal/repository/postgres.go:77-110 | the loop leaves the table of the specification, inserting only absent keys |
| QuoteCache.Repository.FindByRequestID | internal/repository/postgres.go:114-156 | returns exactly the live rows of the request, each once, by premium, with every field spelled out; ok if and only if there is one |
| QuoteCache.Repository.DeleteExpired | internal/repository/postgres.go:160-167 | removes exactly the expired rows and counts them |
| QuoteCache.SaveExactly | internal/repository/postgres.go:77-110 | a stored row wins, then the first saved quote of the carrier; other requests are untouched |
| QuoteCache.SaveIsIdempotent | internal/repository/postgres.go:74-76 | saving the same results again changes nothing |
| QuoteCache.SavedIsFoundExactly | internal/repository/postgres.go:77-156 | a saved quote is found afterwards if and only if it has not expired and what is stored of it is the row that was there before, or else that of its carrier's first quote in the save |
| QuoteCache.ExpiredRowBlocks | internal/repository/postgres.go:81-118 | an expired row that has not been swept hides every new quote of its key |
| QuoteCache.RoundTrip | internal/repository/postgres.go:77-156 | for a request without rows, a find after saving deduplicated results returns exactly the unexpired ones, each once, by premium: carrier, premium, expiry and hedged mark as saved, an empty currency as USD, the latency in whole milliseconds, the reference empty |
| QuoteCache.NormalisedExactly | internal/repository/postgres.go:77-156 | what comes back of a stored quote, if and only if it agrees with it field by field, but for less than a millisecond of latency, the empty currency and the reference |
| QuoteCache.AnswersAreFixedPoints | internal/repository/postgres.go:77-156 | what has been found once is saved and found again unchanged |
| QuoteCache.RowSurvives | internal/repository/postgres.go:77-167 | no save or sweep changes a row before its expiry |
| QuoteCache.AnswersAreStable | internal/repository/postgres.go:77-167 | a quote once found is found unchanged until it expires, whatever saves and sweeps come between |
| QuoteCache.SweepsAreUnobservable | internal/repository/postgres.go:160-167 | sweeps with no save after them leave the possible answers the same |
| QuoteCache.GetQuotes | internal/orchestrator/orchestrator.go:98-258 | the fan-out runs if and only if there is no repository, the request has no ID, the lookup fails or no row is live; its results are saved under the key; otherwise the stored quotes are returned; either way one quote per carrier, by premium |
| QuoteCache.AskTwice | internal/orchestrator/orchestrator.go:98-258 | repeating a request before the quotes of its fan-out expire returns exactly what is kept of the first answer, field by field, without a fan-out |
| Retry.WithDefaults | internal/adapter/http_carrier.go:25-47 | every configuration becomes usable, a usable one is kept, zero retries become three and at least one is always made, and the other defaults are 100 ms and 5 s |
| Retry.DelayWraps | internal/adapter/http_carrier.go:91-102 | in every case the delay before a retry is RetryDelay·2^j up to multiples of 2^64 |
| Retry.DelaysExactlyWhenTheyFit | internal/adapter/http_carrier.go:91-102 | the 64-bit delays are RetryDelay·2^j if and only if the last one, RetryDelay·2^(MaxRetries-1), fits |
| Retry.TotalBackOff | internal/adapter/http_carrier.go:91-102 | the waits before attempt k add up to RetryDelay·(2^(k-1)-1) |
| Retry.Post | internal/adapter/http_carrier.go:83-130 | ends in exactly one way, after exactly one number of attempts: at the first success, at the first failure with a status from 400 to 499, at a cancelled wait, or after MaxRetries+1 other failures; every attempt before the last is another kind of failure; with the back-off in between |

## Left out

- Thresholds are assumed to fit in 32 bits and counters not to wrap (`internal/circuitbreaker/breaker.go:134`, `internal/circuitbreaker/breaker.go:170`).
- A panic inside fn is not modelled, so neither is the release of the probe slot on that path.
- The latency estimate is over the reals: no float64 rounding, infinities or NaN.
- The interleaved models (breaker, Record, fan-out) are transition systems on values; update in place and memory ordering are represented by one atomic step per operation.
- The interleaved breaker reads an arbitrary clock, which includes every real one.
- Adapter and limiter calls are assumed to return. Ticks may go on for ever in the fan-out model; termination is proved for runs that do some work in every k consecutive ticks.
- Every carrier is assumed to have a breaker, a limiter and a tracker, and an adapter to answer with its own carrier's ID (`internal/adapter/adapter.go:53-63`).
- The fan-out machine lets the limiter, the breaker and the adapter answer anything at any time; it does not couple one breaker's state across carriers or requests, and the request ID and latency of a quote are set only in `CallCarrier`.
- HedgesAreDue: the Record calls before the threshold is read are a run of their own; those committed later are not interleaved with the fan-out, which does not read them.
- QuoteCache.GetQuotes: callers that share one fan-out through singleflight are not in the contract, because sharing hands every one of them the leader's result.
- CarrierCall.CallCarrier: calls of one breaker do not overlap here; overlapping ones are the interleaved breaker's.
- slices.SortFunc is modelled as any ordered permutation, and ORDER BY as leaving rows of equal premium in any order.
- Retry.Post: building the request, encoding the body and the error texts are not modelled.
- Database transactions, connection and scan errors, migrations, and the microsecond precision of stored instants; a failed lookup or save appears only as a flag of `GetQuotes`.
- The scoped cache key is a parameter; how it is built from client and request is not modelled.
- singleflight, the rate limiter, the HTTP handler, authentication, concurrency limits, the Prometheus recorder, the mock and Delta carriers, the cleanup ticker and start-up would add only wrappers or easy members.
