# Fusillade, verified

A Dafny model of the parts of the Fusillade load-testing engine where a mistake would be hard to
see from outside: how workers are scheduled and scaled, how iterations and metrics are handed from
thread to thread, how metric lines are packed, how redirects are followed, how JSON becomes
protobuf messages, and how text is written and read back. Each module follows one source file or
one component of `src/engine/mod.rs`.

| file | what it models |
|---|---|
| `Schedule.dfy` | piecewise-linear ramp schedules, exactly, with truncation where the code truncates |
| `PauseClock.dfy` | `ControlState`'s pause and resume accounting on an explicit clock |
| `WorkerPool.dfy`, `RampingWorkers.dfy` | the stack of workers with stop flags, and the ramping controller |
| `LegacyLoop.dfy` | the single-scenario main loop with live control commands |
| `ArrivalRate.dfy` | the arrival-rate dispatcher, its bounded queue and its worker pool |
| `SharedIterations.dfy` | workers claiming numbers from one counter |
| `MetricFanout.dfy` | metrics on their way from producers to shards and to the remote endpoint |
| `SharedArrayCache.dfy` | the double-checked cache behind `SharedArray` |
| `ClusterRegistry.dfy` | worker registration, dispatch and disconnection |
| `StatsdBatching.dfy` | greedy packing of StatsD lines into packets |
| `HeaderViews.dfy`, `Redirects.dfy` | the two redirect followers, one over hyper and one over ureq, and what each sees of a response |
| `GrpcJson.dfy` | JSON to protobuf messages, directed by a schema |
| `SseReader.dfy`, `SseStandard.dfy` | the Server-Sent Events reader and its client, and the standard's own interpretation of a stream |
| `Csv.dfy`, `CsvFile.dfy`, `Text.dfy` | the CSV writer and line parser, whole files, and trimming |
| `Escaping.dfy` | the HTML and JavaScript escapers |
| `Wrappers.dfy` | results that may be missing or an error |

Code that works by changing things step by step is a class or a method with loops, proved against
functions that are themselves characterised by lemmas. Concurrent code is a step relation in which
every interleaving is a run, with an inductive invariant; the theorems speak of every state of every
run. The server, URL joining, cookie matching, base64, clocks and the network are arbitrary
functions or arbitrary readings, so the theorems hold whatever they do.

## Where the code and its documentation disagree

The model follows the code; each disagreement, or surprise, is proved.

- The shared-iterations pool is documented as a fixed total (`DOCUMENTATION.md:262`). A number is
  claimed after the call, so up to one extra call a worker is made, and some interleaving makes all
  of them (`SharedIterations.StartedBoundIsReached`).
- The arrival-rate executor is documented to drop iterations when all workers are busy
  (`DOCUMENTATION.md:310`). It drops them only when the queue, twice the number of workers, is full;
  and a whole queue of iterations can be reported as started and never run, for every number of
  workers above 0 (`ArrivalRate.AbandonsIff`, `ArrivalRate.QueueCanBeAbandoned`).
- The ramping-workers default schedule is commented as constant (`src/engine/mod.rs:961`), but ramps
  up from 0 (`Schedule.RampingDefaultIsNotConstant`).
- Pausing twice, or at clock value 0, loses paused time (`PauseClock.ReportIsExactIff`).
- `json_val_to_prost` has branches for integer and boolean map keys, but a JSON key always arrives as
  a string, so such a map is accepted only when it is empty (`GrpcJson.MapKeysMustBeStrings`).
- The two redirect followers see headers differently: of a repeated header hyper's loop keeps the
  last line and ureq's the first, and hyper shows every value outside visible ASCII as empty. A reply
  on which they differ in cookies or location parts them (`Redirects.SeenAlikeIsNeeded`), and so does
  a URL that only one of them accepts (`Redirects.BuiltByOneParts`). On 301 and
  302 both turn every method but GET and HEAD into GET; RFC 9110 sections 15.4.2 and 15.4.3 allow that
  for POST.
- A CSV file is split into lines before its quotes are looked at, so a written field with a line feed
  does not come back (`CsvFile.UnchangedIff`).
- The SSE reader differs from sections 9.2.5 and 9.2.6 of the WHATWG HTML standard: it delivers a
  block with no data field and an event left unfinished at the end, trims values where the standard
  removes one space, passes over field names without a colon, and takes ids with a NUL and empty types
  as they come. `SseStandard.AgreesIff` says exactly when that shows.
- Two cluster workers with one id: the registry loses the one that is still connected
  (`ClusterRegistry.DuplicateIdLosesLiveWorker`).
- Dispatching holds only a read lock, so two dispatches at once may reach two workers in opposite
  orders (`ClusterRegistry.OverlappingDispatchesReorder`).

## Model

| member | source | states |
|---|---|---|
| Schedule.StageIffBeforeEnd | src/engine/mod.rs:2206-2238 | some stage of positive length covers a time exactly when the time is before the schedule's end |
| Schedule.StageIsUnique | src/engine/mod.rs:2206-2238 | no time lies in two stages, whatever zero-length stages are mixed in |
| Schedule.StageValueInterpolates | src/engine/mod.rs:2209-2216 | the loop's line over reals, truncated, is the weighted mean of the stage's two end targets rounded down, for ramps up and down |
| Schedule.TargetIsOnTheLine | src/engine/mod.rs:2209-2214 | inside every stage, going up or down, target and rate are the exact point on the line between the stage's two end targets, rounded down |
| Schedule.OneMoreStage | src/engine/mod.rs:2206-2238 | stage by stage, what every schedule prescribes at every time: a further stage changes nothing before it, ramps from the last target to its own, and is followed by target 0 and its own rate |
| Schedule.CalculateTarget | src/engine/mod.rs:2206-2220 | the loop returns the interpolation inside the one stage in force, and 0 after the end; it never divides by zero |
| Schedule.CalculateRate | src/engine/mod.rs:2224-2238 | the same inside the schedule, and the last rate after the end |
| Schedule.TargetAndRateAgree | src/engine/mod.rs:2206-2238 | the two calculations agree before the end and part after it |
| Schedule.MonotoneInStage | src/engine/mod.rs:2206-2238 | inside a stage the target moves one way only and stays between the stage's two end targets |
| Schedule.StageStartsOnPreviousTarget | src/engine/mod.rs:2206-2238 | a stage of positive length starts exactly on the previous stage's target |
| Schedule.NeverAboveLargestTarget | src/engine/mod.rs:2206-2238 | no time's target or rate exceeds the largest target in the schedule |
| Schedule.LegacyDefaultIsConstant | src/engine/mod.rs:1588 | the single-scenario default keeps the configured worker count throughout |
| Schedule.RampingDefaultIsNotConstant | src/engine/mod.rs:960-963 | the ramping-workers default, described as constant, climbs linearly from 0 and equals the configured count only when that is 0 |
| PauseClock.ControlState.constructor | src/engine/control.rs:42-52 | a new control state is running with nothing accounted |
| PauseClock.ControlState.DoPause | src/engine/control.rs:54-58 | a pause adds itself to the history the counters replay, overwriting the start of a pause under way |
| PauseClock.ControlState.DoResume | src/engine/control.rs:60-68 | a resume folds the open interval into the total without moving the reported value |
| PauseClock.ControlState.ReadTotalPaused | src/engine/control.rs:71-82 | the report plus the lost intervals is the time really spent paused |
| PauseClock.AccountingGap | src/engine/control.rs:54-82 | over every pause and resume sequence on a non-decreasing clock, the report falls short of the real paused time by exactly the intervals cut off by a second pause or begun at clock value 0 |
| PauseClock.PausedTimeIsCount | src/engine/control.rs:54-82 | the time really spent paused is the number of clock values at which the last event is a pause |
| PauseClock.ReportIsExactIff | src/engine/control.rs:54-82 | the report is exact if and only if no non-empty paused interval is cut by a repeated pause or starts at clock value 0 |
| PauseClock.ReportWithinFirstPause | src/engine/control.rs:54-82 | the report never exceeds the time since the first pause, and is 0 before it |
| PauseClock.FrozenWhilePaused | src/engine/control.rs:71-82 | between events the schedule's clock stands still exactly during a pause begun above clock value 0, and otherwise runs with the wall clock |
| PauseClock.ActiveNeverDecreases | src/engine/control.rs:54-82 | whatever is paused or resumed, elapsed minus reported pauses never goes back |
| WorkerPool.Pool.Spawn | src/engine/mod.rs:1214-1240 | new workers are appended running, with fresh increasing ids; the old list stays as a prefix |
| WorkerPool.Pool.StopLast | src/engine/mod.rs:1245-1248 | the newest worker leaves the list and only its flag is cleared |
| WorkerPool.Pool.StopDownTo | src/engine/mod.rs:1894-1901 | the list is cut to the target from the end; every popped worker is stopped, every kept one runs |
| WorkerPool.Pool.StopAll | src/engine/mod.rs:1266-1269 | at the end no flag is left set, on the list or off it |
| RampingWorkers.Controller.Adjust | src/engine/mod.rs:1208-1260 | after a turn the list has exactly the scheduled length, its oldest workers kept, every id given once, active flags true and popped ones false |
| RampingWorkers.Controller.Run | src/engine/mod.rs:1203-1269 | over a whole run the gauge shows the scheduled target of every turn until time or a stop ends it; then nobody runs, and spawned equals active plus stopped |
| LegacyLoop.Controller.Execute | src/engine/mod.rs:1632-1693 | each control command changes what it names and nothing else; a non-zero ramp also updates the control state |
| LegacyLoop.Controller.ProcessCommands | src/engine/mod.rs:1628-1695 | waiting commands are carried out in order up to the first stop |
| LegacyLoop.Controller.ReadScheduledTarget | src/engine/mod.rs:1698-1702 | the scheduled target is read at elapsed time less reported pauses, the clock being read once for each |
| LegacyLoop.Controller.Decide | src/engine/mod.rs:1697-1722 | a ramp command's target comes before the scheduled one, and a raised memory flag blocks going up until memory has recovered |
| LegacyLoop.Controller.Scale | src/engine/mod.rs:1697-1902 | spawns up to the target unless memory is throttled, and shrinks only to a ramp command's target; kept workers stay in place |
| LegacyLoop.Controller.Tick | src/engine/mod.rs:1608-1902 | one turn of the loop over the real objects, stopped by anybody at any point of it, is one step of the value-level specification the run theorems use |
| LegacyLoop.NothingAfterStop | src/engine/mod.rs:1684-1692 | no command behind a stop is carried out |
| LegacyLoop.ThrottledTurn | src/engine/mod.rs:1704-1721 | from every state, while the memory flag is up and memory has not recovered nobody is spawned, ramp command or not, and the flag stays up |
| LegacyLoop.ThrottledRun | src/engine/mod.rs:1704-1721 | over every run in which memory does not recover the count never grows |
| LegacyLoop.WorkersAreRunningMaximum | src/engine/mod.rs:1697-1902 | over every run without ramp commands or throttling the worker count is the running maximum of the scheduled targets seen |
| LegacyLoop.LastRampWins | src/engine/mod.rs:1632-1652 | of a batch of commands without a stop, the last ramp decides the dynamic target |
| LegacyLoop.RampSetsWorkers | src/engine/mod.rs:1640-1652 | a turn ending in Ramp(n), n above 0, leaves exactly n workers unless spawning is blocked and n is more than there are |
| LegacyLoop.RampZeroReturnsToSchedule | src/engine/mod.rs:1633-1639 | Ramp(0) returns to the schedule, which only ever adds workers |
| LegacyLoop.RampHolds | src/engine/mod.rs:1703-1902 | over every later run without a ramp command the count stays, whatever the schedule says |
| LegacyLoop.PauseFreezesTheRun | src/engine/mod.rs:1608-1702 | during a pause begun above clock value 0, over every run of turns without pause, resume or stop, the test does not finish and every turn sees the target at the pause, at a time short by exactly the gap between its two clock readings |
| LegacyLoop.LastPauseCommand | src/engine/mod.rs:1653-1664 | the last pause or resume command of a batch becomes the last event of the pause clock, as what it is and with its own time |
| LegacyLoop.PauseCommandFreezes | src/engine/mod.rs:1608-1702 | a pause command above clock value 0, in a turn that no later pause or resume of the batch undoes, freezes the run from that turn on: whatever turns follow, until a resume or a stop the test goes on and every turn sees the target scheduled at the pause |
| LegacyLoop.ResumeContinues | src/engine/mod.rs:1698-1702 | from a resume on, the time the schedule sees is what it was with the pause read at the resume |
| ArrivalRate.RunInv | src/engine/mod.rs:655-890 | one inductive invariant holds in every state of every interleaving of dispatcher and workers |
| ArrivalRate.Conservation | src/engine/mod.rs:655-890 | started plus dropped is the number of counted attempts; accepted iterations are completed, in flight or queued; so started minus completed is at most 3W |
| ArrivalRate.AttemptLimit | src/engine/mod.rs:875-882 | with an iteration limit the attempts never exceed it, except that a limit of 0 lets one through |
| ArrivalRate.NumbersHandedOutOnce | src/engine/mod.rs:761-765 | workers get each iteration number at most once and in increasing order |
| ArrivalRate.HistoryGrows | src/engine/mod.rs:655-890 | along a run no counter falls and the numbers handed out are only added to |
| ArrivalRate.ReportedGap | src/engine/mod.rs:888-916 | the two metrics sent at the end differ by exactly what was in flight or queued when the second was read, at most 3W; once everybody has left, what was reported as started and has not completed is what still sits in the queue |
| ArrivalRate.ReportIsOfItsMoment | src/engine/mod.rs:906-916 | the recorded figures are those of the moment the completed counter is read, before any worker is joined |
| ArrivalRate.NothingLostAfterDrain | src/engine/mod.rs:813-821 | once the channel is closed and the queue is empty, everything accepted is completed or in flight from then on |
| ArrivalRate.WorkerMoves | src/engine/mod.rs:752-821 | in every run a worker leaves exactly when it finds the run flag cleared or a stop requested at its loop head, or its start-up fails, or the channel is closed and empty; it takes the oldest iteration |
| ArrivalRate.DispatcherMoves | src/engine/mod.rs:835-916 | in every run an attempt is dropped exactly when the queue holds twice as many iterations as there are workers; the limit and the end of time lead to shutting down, once and in order |
| ArrivalRate.StopBound | src/engine/mod.rs:752-821 | however a run goes on after a stop, no more iterations begin than workers were waiting on the queue then |
| ArrivalRate.NothingWithoutWorkers | src/engine/mod.rs:862-875 | once every worker has left nothing more is attempted |
| ArrivalRate.GapIsBounded | src/engine/mod.rs:655-890 | started minus completed never exceeds 3W, nor the attempts a limit lets through |
| ArrivalRate.GapIsReached | src/engine/mod.rs:655-890 | for every number of workers and every limit some run reaches that bound, so it cannot be lowered |
| ArrivalRate.AbandonsIff | src/engine/mod.rs:752-821 | some run leaves iterations undone that were reported as started if and only if there are workers |
| ArrivalRate.QueueCanBeAbandoned | src/engine/mod.rs:752-890 | for every pool and limit some run abandons a full queue: 2W iterations, or as many as the limit lets through |
| ArrivalRate.AbandonedBound | src/engine/mod.rs:752-890 | no run abandons more than that |
| ArrivalRate.NoWorkersNoAttempts | src/engine/mod.rs:862-875 | without workers nothing is attempted |
| SharedIterations.RunInv | src/engine/mod.rs:1417-1495 | one inductive invariant holds in every state of every interleaving of the claiming workers |
| SharedIterations.ClaimsAreDistinct | src/engine/mod.rs:1484-1489 | claimed numbers are 0, 1, 2 and so on without repetition, and exactly max(0, counter - total) workers have left through a claim |
| SharedIterations.StartedBound | src/engine/mod.rs:1417-1495 | no interleaving starts more than total plus workers iterations |
| SharedIterations.StartedBoundIsReached | src/engine/mod.rs:1417-1495 | for every pool and every number of workers some interleaving reaches that bound, so it cannot be lowered |
| SharedIterations.ExactWhenAllLeaveByClaim | src/engine/mod.rs:1417-1495 | if every worker leaves through a claim, exactly total plus workers calls were made |
| SharedIterations.UsedUpMeansRun | src/engine/mod.rs:1525-1530 | if the scenario stops waiting because the pool is used up, at least total calls have returned |
| SharedIterations.WorkerMoves | src/engine/mod.rs:1417-1495 | in every run a worker leaves exactly when it finds its flag cleared or a stop requested at its loop head, or its start-up fails, or the number it claims after a call is not below the total |
| SharedIterations.FlagsStandWhileWaiting | src/engine/mod.rs:1517-1545 | no flag is cleared before the scenario has stopped waiting |
| SharedIterations.StopBound | src/engine/mod.rs:1417-1432 | however a run goes on after a stop, no more calls begin than workers had passed the check |
| MetricFanout.ShardIndex | src/engine/mod.rs:406-408 | the shard index is in range for every counter value |
| MetricFanout.RunInv | src/engine/mod.rs:381-445 | one inductive invariant holds in every state of every interleaving of producers and consumers |
| MetricFanout.FirstInFirstOut | src/engine/mod.rs:375-405 | what consumers have taken and what the channel holds are, one behind the other, what was sent |
| MetricFanout.RoundRobin | src/engine/mod.rs:406-408 | the n-th metric a consumer stores goes to shard (its number + n times the consumers), wrapped at 64 bits, modulo the shards, and to no other |
| MetricFanout.StoreReports | src/engine/mod.rs:415-438 | in every run the first consumer's store sends the batch exactly when a second has passed or the batch reaches 100; other consumers leave it alone |
| MetricFanout.MetricsConserved | src/engine/mod.rs:381-445 | every metric has been sent as often as it is in shards, channel and hands together |
| MetricFanout.ExitMeansDrained | src/engine/mod.rs:405-443 | a consumer leaves only when every producer is gone and the channel is empty for good |
| MetricFanout.EverythingAggregatedAtExit | src/engine/mod.rs:405-448 | when all consumers have left, the shards hold exactly what was sent |
| MetricFanout.EverythingCanGetThrough | src/engine/mod.rs:381-448 | whatever is sent, some run aggregates all of it and ends with every consumer gone |
| MetricFanout.RemoteBatches | src/engine/mod.rs:415-438 | the batches of 1 to 100 metrics and the unsent remainder concatenate to what the first consumer stored, in order |
| MetricFanout.RemoteIsCompleteIff | src/engine/mod.rs:415-443 | the endpoint has seen a metric as often as the shards if and only if no other consumer stored it and none is left in the remainder |
| SharedArrayCache.RunInv | src/bridge/data.rs:80-151 | one inductive invariant ties both locks and every constructor's progress to the map, in every interleaving |
| SharedArrayCache.OneResultPerName | src/bridge/data.rs:103-151 | at most one factory result is ever stored under a name |
| SharedArrayCache.HandlesAgree | src/bridge/data.rs:93-151 | every handle returned for a name is the stored one, so all handles of a name agree |
| SharedArrayCache.FactoriesRunAlone | src/bridge/data.rs:103-151 | while a factory runs no other constructor holds either lock |
| SharedArrayCache.EntriesNeverChange | src/bridge/data.rs:80-151 | along every run a stored entry never changes or disappears |
| SharedArrayCache.StepKeeps | src/bridge/data.rs:103-151 | only a factory that returns changes the map, and only under a name not there yet: a failing one leaves it as it was |
| SharedArrayCache.ErrorMeansNothingMade | src/bridge/data.rs:103-151 | a constructor that reports an error has stored nothing |
| SharedArrayCache.ItemsAreTheFactorys | src/bridge/data.rs:113-143 | in every run a stored array holds, whole and in order, the items its maker's factory returned, and stands under that call's name |
| SharedArrayCache.ReturnsAreStored | src/bridge/data.rs:128-151 | what a factory returns is stored for good, and every handle ever returned under its name holds just those items |
| SharedArrayCache.HandlesAreMade | src/bridge/data.rs:93-151 | every handle holds what some factory returned |
| SharedArrayCache.ErrorIffFactoryFailed | src/bridge/data.rs:103-151 | a constructor ends in an error if and only if its own factory failed |
| ClusterRegistry.Channel.TrySend | src/cluster/mod.rs:82-119 | a full or closed channel refuses and stays as it was; any other appends the command at its end |
| ClusterRegistry.Registry.Register | src/cluster/mod.rs:133-169 | a fresh empty channel stands under the id, replacing whatever did; all other entries stay |
| ClusterRegistry.Registry.Unregister | src/cluster/mod.rs:192-196 | exactly the id's entry goes |
| ClusterRegistry.Registry.Dispatch | src/cluster/mod.rs:82-119 | fails exactly on an empty registry; otherwise every open channel with room gets the command once, all others stay, and the count is the number that took it |
| ClusterRegistry.RunInv | src/cluster/mod.rs:82-204 | one inductive invariant holds in every reachable state of the protocol |
| ClusterRegistry.CommandsInDispatchOrder | src/cluster/mod.rs:82-204 | in every run each connection is given a command at most once and never behind that of a dispatch begun after the command's own had returned; at most 100 wait unread |
| ClusterRegistry.DispatchSeesOneRegistry | src/cluster/mod.rs:89-118 | while a dispatch is under way nobody can register or be cleaned up, and every id it has yet to serve has its live connection |
| ClusterRegistry.OverlappingDispatchesReorder | src/cluster/mod.rs:89-118 | from every reachable state with two dispatches under way that both have two workers left to serve, with room in their channels, the run can go on so that the two workers get the two commands in opposite orders |
| ClusterRegistry.DispatchesCanOverlap | src/cluster/mod.rs:89-118 | such states are reachable, since a dispatch holds only a read lock |
| ClusterRegistry.DispatchCountIsExact | src/cluster/mod.rs:82-119 | in every state, overlapping dispatches or not, a dispatch's count is the number of connections that were given its command |
| ClusterRegistry.OfferDelivers | src/cluster/mod.rs:104-116 | in every run an offer gives the command to the live connection under the id, behind all it was given before, exactly if its channel is open with fewer than 100 waiting; the dispatch counts it then, and nobody else is given anything |
| ClusterRegistry.BeginAndReturn | src/cluster/mod.rs:89-118 | in every run a dispatch begins owing its command to every registered id, and returns only when it owes nothing more |
| ClusterRegistry.DispatchesCanFollow | src/cluster/mod.rs:82-119 | a run in which one dispatch is made, taken, counted and returned before the next begins |
| ClusterRegistry.EverybodyIsOffered | src/cluster/mod.rs:89-118 | a dispatch that has returned has offered its command to every id registered when it began |
| ClusterRegistry.ClosedTakesNothing | src/cluster/mod.rs:104-116 | a connection whose receiver is closed is never given another command |
| ClusterRegistry.OnlyRegisteredAreGiven | src/cluster/mod.rs:125-196 | a connection that never registered or has left is given nothing |
| ClusterRegistry.GoneForGood | src/cluster/mod.rs:140-196 | a connection that was rejected or has left stays away |
| ClusterRegistry.StepKeepsExactIff | src/cluster/mod.rs:125-204 | a step keeps the registry equal to the live registered connections if and only if it does not register an id that is taken |
| ClusterRegistry.RegistryIsExact | src/cluster/mod.rs:125-204 | in every run without such a registration the registry is exactly the live registered connections |
| ClusterRegistry.DuplicateIdLosesLiveWorker | src/cluster/mod.rs:125-204 | a run in which a connected worker drops out of the registry because another with its id left |
| StatsdBatching.Export | src/stats/statsd.rs:249-276 | the packets the socket took are a prefix of the greedy packing, all of it on success; on failure the first refused send ends it |
| StatsdBatching.PackIsOptimal | src/stats/statsd.rs:249-276 | no way to cut the same lines, in order, into packets of at most 1400 bytes uses fewer packets |
| StatsdBatching.GreedyStaysAhead | src/stats/statsd.rs:249-276 | with any open batch, the greedy loop needs at most one packet more than any fitting cut of the remaining lines |
| StatsdBatching.PacketsLoseNothing | src/stats/statsd.rs:249-276 | splitting the packets on newline in send order gives every line back, once, in order |
| StatsdBatching.OversizedPacketIsOneLine | src/stats/statsd.rs:249-276 | a packet above 1400 bytes is one line above 1400 bytes |
| StatsdBatching.LosslessIff | src/stats/statsd.rs:249-276 | for every list of lines, a server reads back exactly the lines sent if and only if no line holds a newline and no empty line opens a batch, that is, comes first or right after 1400 full bytes |
| HeaderViews.HyperHeaders | src/bridge/http_sync.rs:232-262 | over hyper every Set-Cookie line is kept in order, and of any other repeated header the last line; every value outside visible ASCII shows as empty |
| HeaderViews.UreqHeaders | src/bridge/http_sync.rs:484-493 | over ureq every repeated header, Set-Cookie included, shows what ureq makes of its first value, and is skipped if that is nothing |
| HeaderViews.BridgeShows | src/bridge/http_sync.rs:241-247 | over hyper a name's last line decides: its value is shown as it is if all of it is visible ASCII or tabs, and as nothing otherwise |
| HeaderViews.UreqShows | src/bridge/http_sync.rs:484-493 | over ureq a name's first line decides, and the name is left out if ureq makes no text of it |
| HeaderViews.BridgeCookiesShown | src/bridge/http_sync.rs:241-246 | over hyper every Set-Cookie line gives one cookie text, in order |
| HeaderViews.UreqCookiesShown | src/bridge/http_sync.rs:484-493 | over ureq there are as many cookie texts as Set-Cookie lines, all of them that of the first, or none |
| HeaderViews.SameNameIff | src/bridge/http_sync.rs:244-246 | two header names are the same exactly if they are equal but for the case of ASCII letters |
| HeaderViews.CookiesInOrder | src/bridge/http_sync.rs:343-360 | cookies that parse are taken in order, and one given again moves behind the others |
| HeaderViews.ViewsAgreeIff | src/bridge/http_sync.rs:232-497 | whatever ureq makes of values, the two clients store the same cookies and see the same location if and only if ureq's text of the first Location is hyper's of the last, and ureq's text of the first Set-Cookie is a cookie and the only one among hyper's, or neither client has a cookie |
| HeaderViews.HeadersAgreeIff | src/bridge/http_sync.rs:232-497 | their header maps are equal if and only if under every name ureq's text of the first value is hyper's of the last |
| Redirects.CookiesMerged | src/bridge/http_sync.rs:646-677 | jar cookies follow a Cookie header the user set, under any capitalisation, or make one; no other header changes and no second Cookie header appears |
| Redirects.OnwardIff | src/bridge/http_sync.rs:202-212 | a reply leads on exactly when it is a 301, 302, 303, 307 or 308 with a location that resolves, and then to that place with method, body and headers as RFC 9110 section 15.4 has them |
| Redirects.HttpWorker.BridgeTurn | src/bridge/http_sync.rs:343-385 | one turn over hyper: one request, its reply, the cookies stored, and the next hop |
| Redirects.HttpWorker.UreqTurn | src/bridge/http_sync.rs:452-522 | one turn over ureq: the same, an error status being a response |
| Redirects.HttpWorker.RunBridgeRequest | src/bridge/http_sync.rs:326-420 | terminates; the requests, jar, final response and single metric, named from the original URL, are those of the one run there is |
| Redirects.HttpWorker.ExecuteUreqRequest | src/bridge/http_sync.rs:432-602 | the same over ureq |
| Redirects.TraceIffRun | src/bridge/http_sync.rs:326-602 | what the loops do is the only run that starts with the original request, applies the redirect rule to each reply in turn with the jar kept up, sends at most max_redirects + 1 requests, and stops at a final reply or at the limit |
| Redirects.RunSends | src/bridge/http_sync.rs:215-229 | in every run the i-th request on the wire has the method, the URL, the body and the headers of the i-th hop, the jar's cookies merged in, and the reply is the server's to it; only the last request may be one that cannot be built, and it is not sent |
| Redirects.RunFollows | src/bridge/http_sync.rs:202-212 | in every run one exchange leads to the next through one of the five redirects and a location that resolves; 301, 302 and 303 turn all but GET and HEAD into GET without body, Content-Type and Content-Length, and nothing else changes |
| Redirects.RunStops | src/bridge/http_sync.rs:326-420 | every run starts with the request asked for, makes at most max_redirects + 1 requests, and stops earlier only at a reply that leads nowhere |
| Redirects.RunStores | src/bridge/http_sync.rs:355-385 | along every run the jar keeps what it held and each reply adds the cookies it sets |
| Redirects.JarAfterIs | src/bridge/http_sync.rs:343-420 | the same for any exchange, the last one and failures included |
| Redirects.FinalIs | src/bridge/http_sync.rs:386-420 | response and metric of a call: status and error are the final reply's, and the name is the group prefix with the name tag or else the URL first asked for |
| Redirects.SameRun | src/bridge/http_sync.rs:326-602 | where one client makes only requests that the other can build too (or that both refuse alike), and meets only replies both see alike, the other makes the same requests with the same jars and gets the same replies |
| Redirects.BuiltByOneParts | src/bridge/http_sync.rs:215-229 | a request that only one client can build parts them at once: the other puts nothing on the wire |
| Redirects.SameOutcome | src/bridge/http_sync.rs:326-602 | then both leave the same jar and report from the same reply, and their responses are equal if and only if every header, every Set-Cookie and the body show the same text in both |
| Redirects.SeenAlikeIsNeeded | src/bridge/http_sync.rs:326-602 | any other reply parts the clients against some server, with some URL joining and some jar: they send different requests in one call or in the next, whatever ureq makes of values and though both can build every request |
| GrpcJson.JsonToDynamicMessage | src/bridge/grpc.rs:49-70 | terminates on every JSON value and schema, recursive ones included, with the specified message or the first error |
| GrpcJson.JsonValToProst | src/bridge/grpc.rs:72-128 | the same for a singular, list or map field |
| GrpcJson.JsonToMap | src/bridge/grpc.rs:99-120 | the same for the loop over a map field's members |
| GrpcJson.JsonScalarToProst | src/bridge/grpc.rs:131-199 | the same for one value of every kind |
| GrpcJson.FieldSucceedsIff | src/bridge/grpc.rs:49-199 | for every schema and JSON, the translation succeeds if and only if the JSON conforms to the field |
| GrpcJson.ScalarSucceedsIff | src/bridge/grpc.rs:131-199 | the same for a value: undeclared keys are free, every declared one must conform, at any depth |
| GrpcJson.FieldDenotesIff | src/bridge/grpc.rs:49-199 | for JSON with distinct keys the translation gives a value if and only if the JSON denotes it: lists in order, maps with their own keys, messages with their declared keys, of a oneof only the last one given |
| GrpcJson.ScalarDenotesIff | src/bridge/grpc.rs:49-199 | the same for messages and leaves, integers exact at 64 bits and modulo 2^32 at 32 |
| GrpcJson.FieldSound | src/bridge/grpc.rs:57-60 | every value handed to set_field has the field's declared kind and cardinality, list elements, map keys and values and nested messages included |
| GrpcJson.ScalarSound | src/bridge/grpc.rs:131-199 | type soundness for a value: a message holds declared fields only, each of its type, and one member of a oneof at most |
| GrpcJson.UnknownInFieldIgnored | src/bridge/grpc.rs:57 | dropping undeclared keys at every depth changes neither the value nor the error |
| GrpcJson.UnknownKeysIgnored | src/bridge/grpc.rs:57 | the same for a whole message |
| GrpcJson.PruneDropsUnknown | src/bridge/grpc.rs:57 | an undeclared key is dropped wherever it stands and whatever it holds |
| GrpcJson.MessageFields | src/bridge/grpc.rs:55-62 | the fields set are the declared keys with the translations of their own values, less those a later member of the same oneof cleared |
| GrpcJson.OneofsKeepTheLast | src/bridge/grpc.rs:55-62 | a declared key is set if and only if no later declared member belongs to the same oneof |
| GrpcJson.MessageError | src/bridge/grpc.rs:56-58 | a message fails with the error of its first declared member that fails |
| GrpcJson.ListElements | src/bridge/grpc.rs:74-83 | a list succeeds if and only if every element does, and keeps length and order |
| GrpcJson.ListError | src/bridge/grpc.rs:78-82 | a list fails with the error of its first element that fails |
| GrpcJson.MapEntries | src/bridge/grpc.rs:99-120 | a map with string keys has exactly the object's keys, each with its own value |
| GrpcJson.MapKeysMustBeStrings | src/bridge/grpc.rs:100-117 | among the key kinds protobuf allows, a map whose values conform is accepted if and only if its keys are strings or it is empty |
| GrpcJson.NarrowedIff | src/bridge/grpc.rs:140-152 | a 32-bit field keeps an accepted integer if and only if it is in range; otherwise it silently holds one congruent to it modulo 2^32 |
| GrpcJson.IntegersTaken | src/bridge/grpc.rs:140-155 | signed and enum fields take integers below 2^63 and unsigned ones those from 0 on; 64-bit fields keep them |
| GrpcJson.LeavesKept | src/bridge/grpc.rs:133-187 | numbers, booleans, text, decoded bytes and enum names come through as they are |
| GrpcJson.EnumNumberIs | src/bridge/grpc.rs:188-189 | an enum given by number is narrowed like a 32-bit field |
| GrpcJson.OnlyOwnShape | src/bridge/grpc.rs:131-199 | a kind takes JSON of its own shape only: text is no number, and null is nothing |
| GrpcJson.OnlyOwnFieldShape | src/bridge/grpc.rs:72-98 | the same for lists and maps |
| GrpcJson.ScalarErrorIs | src/bridge/grpc.rs:131-199 | which error a value that does not conform gives, kind by kind |
| GrpcJson.FieldErrorIs | src/bridge/grpc.rs:72-128 | a field's own shape is looked at first, in the order of the code, and then its elements or entries |
| GrpcJson.MapError | src/bridge/grpc.rs:99-120 | a map fails with the error of its first entry that fails, of the key before that of the value |
| SseReader.Reader.ReadLine | src/bridge/sse.rs:136-137 | takes the text up to and including the first newline, or what is left at the end; an I/O error takes the line read so far with it |
| SseReader.ReadSseEvent | src/bridge/sse.rs:129-181 | every call returns an event and consumes text, reports the end, or reports an I/O error and stands behind it |
| SseReader.Client.Recv | src/bridge/sse.rs:55-105 | the stream is given up at the end and on fatal errors only; the last event id outlives events without one; one metric a completed read |
| SseReader.EveryStream | src/bridge/sse.rs:55-181 | for every text broken anywhere by any errors: up to an error exactly the events that lines complete are received, the fields left open and the part of a line read are lost, and reading starts afresh after a transient error and is over after a fatal one |
| SseReader.AtBreakIs | src/bridge/sse.rs:55-149 | what is open before a break is lost: reading goes on behind a transient one and is over at a fatal one; at the end it makes an event if it has content |
| SseReader.DocumentRoundTrip | src/bridge/sse.rs:129-181 | reading any document event by event gives what its blocks stand for, in order, and then the end; comments, blank lines, padding and line-end style make no difference |
| SseReader.EventsRoundTrip | src/bridge/sse.rs:129-181 | every list of events with trimmed, break-free values comes back exactly, whatever comments and blank lines stand between |
| SseReader.FourLines | src/bridge/sse.rs:170-180 | for all clean values, `event:`, two `data:` and `id:` lines and an empty one make one event with the type, the data joined by a line feed, and the id |
| SseReader.OneOddLine | src/bridge/sse.rs:165-180 | a block whose only line is an unknown field makes an empty event, and a comment none |
| SseStandard.AgreesIff | src/bridge/sse.rs:55-181 | over every document whose lines end with LF or CR LF, with a byte order mark or without, the types, data and last event ids delivered are exactly those the standard dispatches if and only if every finished block with content has a data field and keeps its data, its type and its id, and no content is left unfinished; the first block after a mark has a condition of its own |
| SseStandard.BlockKeptIff | src/bridge/sse.rs:170-180 | one block is delivered alike if and only if its data fields have colons and, after one space, trimmed values (or a bare `data` is the only one), its last event field a trimmed value that is not empty, and its last id field a trimmed value without a NUL; a bare `event` or `id` only if the reader holds nothing else |
| SseStandard.MarkBlockIff | src/bridge/sse.rs:170-180 | after a byte order mark, which the standard removes and the reader takes into the first line, the first block is delivered alike if and only if that line gives no data but one empty value and no type or id that counts, and the rest is kept |
| SseStandard.NeverMore | src/bridge/sse.rs:129-181 | the standard never dispatches more events than the reader delivers |
| SseStandard.LoneCrInside | src/bridge/sse.rs:151 | whatever else a document holds, a lone carriage return, which ends a line in the standard, parts the two if it stands inside a data value, or inside the type or id of a block, between characters that are not white space |
| SseStandard.LoneCrInput | src/bridge/sse.rs:151 | for every two values, `data:` with both and a carriage return between them is delivered as one value, which the standard never does |
| SseStandard.LoneCrParts | src/bridge/sse.rs:151 | nothing the standard dispatches holds a carriage return |
| SseStandard.MarkHidesField | src/bridge/sse.rs:172-179 | whatever field the first line after a byte order mark is, the reader goes on as after an unknown one |
| Csv.ParseCsvLine | src/bridge/data.rs:14-51 | on every line, malformed ones too, the fields are those told by quote parity, 1 more than the commas preceded by an even number of quotes |
| Csv.FieldsAreByParity | src/bridge/data.rs:14-51 | every line, malformed ones too: a field runs to the next comma with an even number of quotes before it and holds everything but quotes, and every quote that follows another with an even number before it, trimmed |
| Csv.EscapedIs | src/stats/csv.rs:6-12 | a value is put in quotes exactly if it holds a comma, a quote, a line feed or a carriage return |
| Csv.FieldCount | src/bridge/data.rs:14-51 | from any position and automaton state that match, the lookahead agrees with quote parity |
| Csv.RowRoundTrip | src/stats/csv.rs:57-90 | parsing a row of escaped values set in fixed text gives every cell's text back, trimmed |
| Csv.FieldsRoundTrip | src/stats/csv.rs:6-12 | escaped, joined and parsed, fields come back trimmed, commas, quotes and newlines included; unchanged if and only if none begins or ends with white space |
| CsvFile.ReadCsv | src/bridge/data.rs:234-254 | the loop over a file's lines: the first parsed is the header, the rest gives the rows, and exactly an empty file is an error |
| CsvFile.LinesOfPieces | src/bridge/data.rs:240-249 | the lines of every file: the pieces between line feeds without one carriage return at their end, and the last piece as it is unless it is empty |
| CsvFile.EveryText | src/bridge/data.rs:240-249 | every file is made of such pieces |
| CsvFile.RowsAre | src/bridge/data.rs:246-249 | the rows of any lines are those that are not white space only, parsed, in order, however many blank ones stand between |
| CsvFile.FileRoundTrip | src/stats/csv.rs:15-91 | a file of escaped rows without line feeds in fields and without blank rows reads back, header first and rows in order, every field trimmed |
| CsvFile.UnchangedIff | src/bridge/data.rs:234-254 | a written file reads back unchanged if and only if every row has a field, every field is trimmed and holds no line feed, and no row after the header is one empty field |
| Text.TrimIsTrimmed | src/bridge/data.rs:14-51 | trimming leaves no white space at either end and changes a text exactly when it had some |
| Text.TrimPadded | src/bridge/sse.rs:172-177 | white space around a trimmed text is all that trimming removes |
| Text.WhitespaceIs | src/bridge/data.rs:14-51 | white space is the 25 characters with the Unicode property |
| Escaping.ChainIsOnePass | src/stats/html.rs:529-535 | the chain of five replacements never escapes its own output: it replaces each character of the original once |
| Escaping.HtmlRoundTrip | src/stats/html.rs:529-535 | escaped text has no markup character left and reads back as the original |
| Escaping.EscapeHtmlIs | src/stats/html.rs:529-535 | every text is escaped character by character, with the five entities |
| Escaping.EscapeJsString | src/bridge/browser.rs:13-29 | the loop's output is the one whose reading the next row characterises |
| Escaping.JsRoundTripIff | src/bridge/browser.rs:13-29 | put in a quoted or a template literal, escaped text reads back as the original if and only if no NUL stands before an octal digit (quoted), or before any digit, nor `$` before `{` (template) |
| Escaping.EscapeJsIs | src/bridge/browser.rs:13-29 | every text is escaped character by character, with the eight escapes |

## Left out

- Floating-point rounding: schedules and JSON numbers are exact, and `f64` to `f32` keeps the value.
- Clock readings below a millisecond in pause accounting, and the sleeps between turns and attempts.
- Worker start-up, scripts and the QuickJS runtime: a worker either fails to start or runs its loop.
- The main loop's multi-scenario branch, its periodic metrics report and the separate critical-memory flag.
- The per-worker-iterations limit and graceful stop: a counter local to one worker, and a wait.
- Pausing inside worker loops: a paused worker is one whose next step has not happened yet.
- StatsD line text: `build_metrics` and `sanitize_metric_name` only decide what the lines say; the lines it builds are never empty, and free of newlines if the prefix is.
- MetricFanout.RemoteBatches: a failed HTTP report is not told apart from a successful one, because the code ignores the difference.
- Aggregator internals, histograms and thresholds: a shard is the multiset of metrics added to it.
- What a metric holds besides name, status, error and tags: timings, sizes and protocol text are left out of `Redirects`.
- How hyper and ureq build their header views is taken from their interfaces: hyper yields every line and its `to_str` accepts visible ASCII, ureq gives the first value of a name; what text ureq makes of a value's or a body's bytes is an arbitrary partial function.
- The order in which a map of request headers is walked: with several differently spelled Cookie headers an arbitrary one is extended.
- An absent request body and an empty one are the same on the wire in `Redirects`; so are headers a client adds by itself, and the spelling a client gives to a URL it accepts.
- `set_field` is described by what it promises: the field is set and the other members of its oneof are cleared.
- base64 decoding in `GrpcJson` is an arbitrary partial function; there is one error for each error text.
- A message type that a schema mentions but lacks has no fields in `GrpcJson`; descriptor pools never have one.
- SseStandard.AgreesIff: documents with a lone carriage return, where the two see different lines; they differ whenever one stands inside a value (`LoneCrInside`), and elsewhere, in comments and unknown fields say, they can agree or differ by chance.
- Bytes that are not UTF-8 in an event stream: an error like any other to the reader.
- `SharedCSV`'s cache, which is double-checked in the way of `SharedArray`'s.
- Authentication, TLS, lock poisoning and a `SharedArray` factory that constructs another `SharedArray`.
- The HTML, console, OTLP and CSV reports' layout, the command line, the recorder and run history.
