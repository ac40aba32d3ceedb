# Topographer, modelled and proved

Topographer resolves IP addresses to places by asking many providers at once and letting them vote. This
project models the parts of it whose correctness depends on interleavings, failures or arithmetic, and proves
what they keep over every run. `dafny verify dfyconfig.toml` checks all of it.

| files | part of the program |
|---|---|
| `BreakerModel`, `BreakerInvariant`, `BreakerTheorems`, `CircuitBreaker` | the circuit breaker of the HTTP client |
| `ResolveTask`, `ResolveOrder`, `ResolveCall`, `ResolveAnswers`, `Topographer`, `TopographerTheorems`, `PoolGroupRequest` | `Resolve`, `ResolveAll`, `Shutdown`, the worker pool and the usage counters |
| `Vote` | the vote over the providers' answers |
| `Checksum`, `FsUpdater`, `CrashSafety`, `UpdateRuns` | on-disk updates of offline databases |
| `Bits`, `RangeSplit`, `PrefixTree`, `RangeScan`, `RowMeanings`, `Software77` | the software77 range database |
| `CountryCodes` | interned country codes |
| `Sums`, `Options` | sums and bags over sequences; the optional value |

## How it is modelled

**Circuit breaker.** The lock holder runs one micro-operation per step, so that the two atomics can be touched
between any two stores; timers have identities, fire at any step while armed, and queue on the mutex; calls are
unboundedly many. The invariant speaks of the fields as they will be when the current holder has finished, and
firing and swapping are shown to commute with the rest of a critical section. The class `CircuitBreaker` has the
methods of the Go struct, each proved to have the effect of its critical section run undisturbed.

**Resolve.** Three layers of transition systems: a pool task with its lookup goroutines, a call with its tasks,
and the whole `Topographer` with its lock, its pool of N workers and any number of calls and shutdowns. Each
layer has one program counter per goroutine; the branches on which Go would panic (a send on a closed channel, a
second close, a negative wait group, an `Add` after the matching `Wait` has begun) set a flag that is proved never
to be set. Cancellation may happen at any step. Termination is a work measure that every step lowers.

**Updates.** The class `FsUpdater` has the methods of `fsDir` and `fsUpdater` over a directory map; which
system calls fail is an argument of each call. `CrashSafety` is the same protocol one file-system step at a time,
with crashes between any two; every outcome of an update is proved to be one of its uninterrupted runs.

**Range database.** Rows become ranges, ranges are split into aligned blocks, blocks are stored in bit trees and
looked up by deepest match. The reference is a linear scan over the rows; the classes carry the list of loaded
ranges as a ghost field, and every method is proved against it.

Assumptions: an accepted pool task runs exactly once; each provider's `Lookup` returns at some time (termination
only); the hash is ideal, so the hashed byte stream stands for the checksum; Double Metaphone is any function;
timers may fire at any step while armed; a rename and the removal of one entry are atomic; an `Open` that fails
keeps the old database (topolib/interfaces.go:51-61), which for software77 is proved.

## Where the code and its documentation part

- topolib/http_client.go:72-75 says the breaker opens after the given number of failures. The code opens on the
  one after that (`BreakerTheorems.TripHistory`).
- topolib/http_client.go:84-86 says half-open allows one attempt. The code allows one per reset of
  `halfOpenAttempts` (`OneProbePerReset`), and a second attempt can run beside the first exactly when another call
  still in flight can switch the breaker (`SecondProbeIff`; `TwoProbesAtOnce` reaches that).
- The same comment says half-open ends with that attempt. When the attempt's context is cancelled the breaker may
  stay half-open for ever; `HalfOpenedExit` says exactly when it can be left.
- topolib/topographer.go:110-113 makes no exception for cancellation, but a `Resolve` that waits for its result may
  wait for ever exactly when its caller's context is done (`HangsIff`, `HungForever`), and a `Shutdown` behind it
  then keeps every later call out (`BlockedForever`, `JamReachable`). A `ResolveAll` that was let in always returns
  (`BatchesReturn`).
- Answers of `ResolveAll` follow the input only if equal addresses stand next to each other in it
  (`CompleteAnswer`).
- topolib/fs.go:21-22 says that a random target directory is used. The code takes the oldest.
- Two different directories may get the same checksum. The checksum singles a directory out exactly when it is
  empty or is one file that hides nothing like the start of a later file (`PinnedDownIff`).
- One removal that fails can, one update later, delete the directory that is open (`OneFailedRemoval`).
- Among overlapping software77 rows the narrowest one does not always answer (`NarrowestAnswersIff`,
  `NarrowestMayLose`); the country tables are inverse up to 255 codes and not beyond (`RoundTripsIff`).

## Model

| member | source | states |
|---|---|---|
| BreakerInvariant.StepKeeps | topolib/circuit_breaker.go:34-177 | every step of every goroutine (a timer firing, a swap in the middle of another section, a late completion, a cancellation) keeps the breaker's invariant |
| BreakerInvariant.RunKeeps | topolib/circuit_breaker.go:34-177 | so does every run, of any length and with any number of calls and timers |
| BreakerInvariant.InitKeeps | topolib/circuit_breaker.go:183-195 | a new breaker satisfies the invariant, with its cleanup timer armed |
| BreakerInvariant.FireCommutes | topolib/circuit_breaker.go:156-177 | a timer that fires during a critical section leaves the state it would leave by firing after it |
| BreakerInvariant.SwapCommutes | topolib/circuit_breaker.go:77-80 | a swap won during a critical section is either wiped by its reset or visible at its end; nothing else differs |
| BreakerInvariant.TimerSection | topolib/circuit_breaker.go:130-154 | the callback of any fired timer, stale or current, leaves good fields and readmits no probe |
| BreakerInvariant.CallSection | topolib/circuit_breaker.go:62-72 | the section of any finished callback, however late, leaves good fields |
| BreakerInvariant.ProbeSection | topolib/circuit_breaker.go:98-106 | a finished probe opens a half-open breaker when it failed, closes it otherwise, and leaves any other phase alone |
| BreakerInvariant.PassEffect | topolib/circuit_breaker.go:62-66 | a call on the closed route that ended without an error, or with the ignored one, closes and resets the breaker from any phase, and is on record |
| BreakerInvariant.FailEffect | topolib/circuit_breaker.go:68-72 | one that failed counts one more, and opens a closed breaker exactly when the count has passed the threshold |
| BreakerInvariant.ProbeEffect | topolib/circuit_breaker.go:98-106 | a finished probe leaves a freshly opened or freshly closed breaker, by its outcome |
| BreakerTheorems.TimersFollowPhase | topolib/circuit_breaker.go:111-177 | whenever the mutex is free: each timer is set in exactly its phase, it can still fire or has its callback queued (no lost wake-up), and a closed breaker has at most threshold failures |
| BreakerTheorems.FailuresCounted | topolib/circuit_breaker.go:62-72 | the counter is the number of failures recorded since the last switch or the last call that ended well, modulo 2^32, and exactly that while closed |
| BreakerTheorems.TripHistory | topolib/circuit_breaker.go:68-72 | a trip comes right after threshold + 1 recorded failures in a row that follow a switch to closed; calls that ended well are on record too, and none lies between |
| BreakerTheorems.SuccessCloses | topolib/circuit_breaker.go:62-66 | in every run, a call on the closed route that ended well closes the breaker before anything else is recorded, whatever the phase |
| BreakerTheorems.PassedIsRecorded | topolib/circuit_breaker.go:62-66 | such a call is on record the moment it takes the mutex, and nothing else is recorded as such |
| BreakerTheorems.RouteFollowsLoad | topolib/circuit_breaker.go:34-43 | the phase a call loads decides its route; one that loaded opened is rejected and never runs its callback |
| BreakerTheorems.PhaseSequence | topolib/circuit_breaker.go:34-154 | closed never goes straight to half-open; a jump from opened to closed is made by a successful or ignored call that had loaded closed before that opening |
| BreakerTheorems.HistoryAlwaysOk | topolib/circuit_breaker.go:111-128 | every recorded switch of every run has a legal cause, also seen from the middle of a section |
| BreakerTheorems.OneProbePerReset | topolib/circuit_breaker.go:77-80 | no two callbacks are admitted between the same two resets of the attempts counter |
| BreakerTheorems.SecondProbeIff | topolib/circuit_breaker.go:77-109 | with this period's probe in flight, another call can be admitted beside it if and only if some other call in flight can still switch the breaker |
| BreakerTheorems.SecondProbe | topolib/circuit_breaker.go:77-82 | and then the two callbacks run at the same time, the first one undisturbed |
| BreakerTheorems.TwoProbesAtOnce | topolib/circuit_breaker.go:77-82 | a reachable state in which they do |
| BreakerTheorems.ProbeAccounted | topolib/circuit_breaker.go:77-106 | half-open with the attempt used: the probe admitted since the last reset is in flight or left through its context |
| BreakerTheorems.FinishedCallsStay | topolib/circuit_breaker.go:34-60 | a rejected or cancelled call stays so in every future: it runs no callback and records nothing |
| BreakerTheorems.OpenedRecovers | topolib/circuit_breaker.go:119-121 | from every opened state the pending timer alone leads to half-open |
| BreakerTheorems.HalfOpenedExit | topolib/circuit_breaker.go:77-109 | half-open can be left if and only if the attempt is unused or some call in flight can still switch |
| BreakerTheorems.DoomedForever | topolib/circuit_breaker.go:77-109 | once that condition fails, no future leaves half-open |
| BreakerTheorems.UncancelledExit | topolib/circuit_breaker.go:84-90 | when the current probe was not cancelled, half-open can be left |
| BreakerTheorems.CancelledProbeStrands | topolib/circuit_breaker.go:84-90 | a reachable state, after one cancelled probe, that every future leaves half-open |
| CircuitBreakers.CircuitBreaker.constructor | topolib/circuit_breaker.go:183-195 | the new breaker is the initial state of the transition system |
| CircuitBreakers.CircuitBreaker.StopTimer | topolib/circuit_breaker.go:156-171 | the reference is cleared and its timer no longer armed, a callback already queued still comes, and no other timer is touched |
| CircuitBreakers.CircuitBreaker.EnsureTimer | topolib/circuit_breaker.go:173-177 | a set reference is kept; otherwise a new armed timer is made |
| CircuitBreakers.CircuitBreaker.SwitchState | topolib/circuit_breaker.go:111-128 | nothing counted, no attempt used, exactly the timer of the new phase set; the effect of the switch's operations run undisturbed |
| CircuitBreakers.CircuitBreaker.TryAdmit | topolib/circuit_breaker.go:78-80 | admits exactly when no attempt was used, and uses it |
| CircuitBreakers.CircuitBreaker.RecordFailure | topolib/circuit_breaker.go:68-72 | counts a failure and opens a closed breaker exactly when the count now exceeds the threshold |
| CircuitBreakers.CircuitBreaker.RecordClosed | topolib/circuit_breaker.go:62-74 | no error or the ignored one: closed and reset, from any phase; any other error: counted, and opened exactly past the threshold |
| CircuitBreakers.CircuitBreaker.RecordProbe | topolib/circuit_breaker.go:98-108 | a half-open breaker is freshly opened by a failure and freshly closed otherwise; any other is untouched |
| CircuitBreakers.CircuitBreaker.ResetFailures | topolib/circuit_breaker.go:130-142 | a closed breaker starts afresh with a new cleanup timer; any other is untouched; equals the callback's section |
| CircuitBreakers.CircuitBreaker.TryHalfOpen | topolib/circuit_breaker.go:144-154 | an opened breaker is half-open with its attempt unused and no timer; any other is untouched; equals the callback's section |
| CircuitBreakers.CircuitBreaker.Do | topolib/circuit_breaker.go:34-43 | undisturbed: the callback runs exactly when closed or half-open with the attempt unused; a cancelled call records nothing; success and the ignored error close and reset; a failure counts, trips past the threshold, or reopens |
| ResolveTask.TaskStepKeeps | topolib/topographer.go:208-262 | every step of a task keeps: no panic, wait group equals live lookups, channel and collected details are exactly what the lookups sent |
| ResolveTask.RoomToSend | topolib/topographer.go:213 | the task channel has room for every lookup that has not sent |
| ResolveTask.ClosedMeansGone | topolib/topographer.go:218-221 | the task channel is closed only when no lookup goroutine is left |
| ResolveTask.SendKeeps | topolib/topographer.go:258-261 | no lookup ever sends on a closed channel or blocks on a full one |
| ResolveTask.LookupDoneKeeps | topolib/topographer.go:242 | the task's wait group never goes negative |
| ResolveTask.TaskProgress | topolib/topographer.go:216-229 | until its worker merges, a task always has an enabled step |
| ResolveTask.TaskStepWorks | topolib/topographer.go:208-235 | and each of its steps uses up work |
| ResolveTask.OneDetailPerProvider | topolib/topographer.go:227-262 | without cancellation the worker collects exactly one detail per provider it was given: the country and city that provider returned, or neither if it failed |
| ResolveTask.DetailsAreTrue | topolib/topographer.go:244-261 | cancelled or not, every collected detail says what some lookup of the task returned |
| ResolveTask.RepliesRecorded | topolib/topographer.go:249-256 | the record of replies is what the lookups brought, and nothing else writes it |
| ResolveOrder.SortExists | topolib/topographer.go:103-105 | a result of the final sort exists for every list of answers |
| ResolveOrder.IndexIsLast | topolib/topographer.go:82-92 | the index map holds the last position of each scheduled address and nothing else |
| ResolveOrder.PositionalIffContiguous | topolib/topographer.go:99-105 | sorted answers stand in input order if and only if equal addresses are adjacent in the input |
| ResolveOrder.PartialInOrder | topolib/topographer.go:99-105 | any answered part of a batch of distinct addresses is sorted into a subsequence of the input |
| ResolveCall.CallStepKeeps | topolib/topographer.go:57-153 | every step of a call keeps: no panic, wait group equals running tasks, no result lost or invented, the index map exact, what each stage of the caller promises |
| ResolveCall.RoomToDeliver | topolib/topographer.go:76 | the result channel of a batch has room for every task that has not delivered |
| ResolveCall.ClosedMeansDone | topolib/topographer.go:94-97 | the result channel is closed only when no task can still deliver |
| ResolveCall.DeliverKeeps | topolib/topographer.go:231-234 | no task ever sends on a closed result channel, in either kind of call |
| ResolveCall.TaskDoneKeeps | topolib/topographer.go:210 | the call's wait group never goes negative |
| ResolveCall.CloseKeeps | topolib/topographer.go:94-97 | the result channel is closed at most once |
| ResolveCall.Quiescent | topolib/topographer.go:94-101 | an empty wait group means that no task and no lookup of the call is left |
| ResolveAnswers.CompleteAnswer | topolib/topographer.go:57-108 | uncancelled and fully scheduled: every address answered, with one detail per provider saying what it returned for that address, in input order exactly when equal addresses are adjacent |
| ResolveAnswers.AnswersAreTrue | topolib/topographer.go:57-153 | cancelled or not, every detail of every answer says what a provider returned for that address |
| ResolveAnswers.PartialAnswer | topolib/topographer.go:84-107 | cancelled or refused at any point: the answers to distinct addresses are a subsequence, in order, of the scheduled ones |
| ResolveAnswers.SingleAnswer | topolib/topographer.go:143-152 | an uncancelled Resolve answers its address with one detail per provider, saying what it returned |
| ResolveAnswers.UnscheduledAnswer | topolib/topographer.go:143-145 | a Resolve whose task was not scheduled answers its address and nothing else, and some context is done |
| ResolveAnswers.CallMoves | topolib/topographer.go:94-152 | past scheduling, a call that is neither over nor hung has an enabled step that is not the environment's |
| ResolveAnswers.HungWasCancelled | topolib/topographer.go:147 | a Resolve whose task has dropped its result was cancelled by its caller |
| ResolveAnswers.CallStepWorks | topolib/topographer.go:57-153 | every step of a call, cancellations included, lowers its bound on remaining steps |
| PoolGroupRequests.PoolGroupRequest.constructor | topolib/pool_group_request.go:58-73 | a new group counts nothing, and its context is done if the caller's already is |
| PoolGroupRequests.PoolGroupRequest.Cancel | topolib/pool_group_request.go:63 | the group's context can end at any later time, as the protocol's step after the caller's has ended, and nothing is uncounted by it |
| PoolGroupRequests.PoolGroupRequest.Do | topolib/pool_group_request.go:29-56 | a scheduled task is counted once, a refused one not at all and cancels the group; the state is that of the protocol's steps |
| PoolGroupRequests.GetProvidersToUse | topolib/topographer.go:170-189 | no names: every provider once; otherwise the named ones in order and as often as named, and one unknown name refuses all |
| Topographers.StepKeeps | topolib/topographer.go:57-206 | every step of every call and shutdown keeps: busy workers equal unfinished tasks, readers equal open calls, closed means no active call, counters equal returned lookups |
| Topographers.RunKeeps | topolib/topographer.go:57-206 | so does every run |
| Topographers.NotifyStats | topolib/usage_stats.go:46-59 | a lookup without an error moves the success counter of its provider by one modulo 2^64, one with an error the failure counter, and no other counter moves |
| TopographerTheorems.ReturnedIsQuiet | topolib/topographer.go:94-101 | a returned call has left no goroutine that can still call a provider |
| TopographerTheorems.NoLookupAtShutdown | topolib/topographer.go:191-206 | from the moment a Shutdown holds the lock, no lookup exists in any call: none overlaps or follows the shutdown of an offline provider |
| TopographerTheorems.ShutdownCompletes | topolib/topographer.go:191-206 | a finished Shutdown has shut down every offline provider, each exactly once, released the pool and closed the Topographer |
| TopographerTheorems.DownedInOrder | topolib/topographer.go:197-205 | at every point the providers shut down are a prefix of the offline ones: none twice, no other, and only after closing |
| TopographerTheorems.SecondShutdownAddsNothing | topolib/topographer.go:197-205 | later calls of Shutdown shut nothing down again |
| TopographerTheorems.RefusedIff | topolib/topographer.go:67-74 | a call is refused if and only if the Topographer is closed or a named provider is not registered |
| TopographerTheorems.ClosedForever | topolib/topographer.go:195 | a closed Topographer stays closed in every future |
| TopographerTheorems.StepWorks | topolib/topographer.go:57-206 | every step of the whole system lowers one bound |
| TopographerTheorems.RunsAreBounded | topolib/topographer.go:57-206 | so every run is finite, whatever is cancelled and whenever |
| TopographerTheorems.Progress | topolib/topographer.go:57-206 | with one worker or more, a state that is neither finished nor jammed by a hung Resolve has an enabled step that is not the environment's: ResolveAll never deadlocks |
| TopographerTheorems.JammedNeedsCancel | topolib/topographer.go:147 | a jam takes a hung Resolve, and one whose caller's context is done |
| TopographerTheorems.HangsIff | topolib/topographer.go:143-152 | a Resolve that waits for its result can end up waiting for ever, with no further cancellation by its caller, if and only if its caller's context is done |
| TopographerTheorems.UncancelledNeverHangs | topolib/topographer.go:114-153 | a call that its caller has not cancelled and does not cancel never hangs, from any stage |
| TopographerTheorems.HungForever | topolib/topographer.go:117-147 | a hung Resolve stays hung in every future, and so does its hold of the read lock |
| TopographerTheorems.BatchProgress | topolib/topographer.go:57-108 | while a ResolveAll is let in and has not returned, something other than the environment can move |
| TopographerTheorems.BatchesReturn | topolib/topographer.go:57-108 | every run is bounded, and one that goes on until only the environment could move ends with every ResolveAll returned that was let in, even beside hung calls and waiting shutdowns |
| TopographerTheorems.BlockedForever | topolib/topographer.go:191-193 | a Shutdown that waits for a hung Resolve keeps every call that has not started out for ever |
| TopographerTheorems.JamReachable | topolib/topographer.go:143-152 | such a jam is reachable |
| TopographerTheorems.CountersExact | topolib/topographer.go:249-256 | in every reachable state the success counter is the number of the provider's lookups that returned without an error, the failure counter that of the others, modulo 2^64 |
| TopographerTheorems.ReturnedCounts | topolib/topographer.go:249-256 | that number is the size of the set of those lookups |
| TopographerTheorems.CountersBalance | topolib/usage_stats.go:46-59 | with no lookup under way, a provider's two counters add up to tasks scheduled times its share of each call, modulo 2^64 and exactly below it |
| Vote.ResolveIPMerge | topolib/topographer.go:264-312 | for any map order, on the positions of the answers: address and answers are passed on untouched; no known country is named more often than the chosen one, unknown exactly when none is named; the city stands last in a phonetic class of that country's answers that no other class out-numbers |
| Vote.GroupByCountry | topolib/topographer.go:265-282 | each known country's group is exactly its voters in arrival order |
| Vote.LargestGroup | topolib/topographer.go:284-295 | the loop keeps the first of the largest groups it meets, whatever the map order |
| Vote.ResolveIPMergeCity | topolib/topographer.go:314-340 | on the positions of the voters: the last spelling of a class that no class out-numbers, empty exactly when no voter named a city |
| Vote.TallyCities | topolib/topographer.go:315-327 | each counter is the number of positions of its phonetic class, and each name the latest spelling in it |
| Vote.VotesArePositions | topolib/topographer.go:267-282 | the size of a country's group is the number of answers that name it |
| Vote.ClassCountIsPositions | topolib/topographer.go:318-325 | the tally of a class is the number of voters in it |
| Vote.VotesBag | topolib/topographer.go:267-282 | the votes of a country do not depend on the arrival order |
| Vote.SelectedIffPlurality | topolib/topographer.go:289-295 | the countries the loop can select, over all map orders, are exactly those nobody out-votes |
| Vote.OrderFreeIffStrict | topolib/topographer.go:264-295 | the country is independent of arrival and map order if and only if it is unknown or wins strictly |
| Checksum.RoundTrip | topolib/fs.go:119-132 | framing is decodable when paths avoid bytes 0 and 1 and contents avoid byte 0 |
| FsUpdaters.FrameOne | topolib/fs.go:119-132 | each file adds byte 0, its path, byte 1 and its contents to the stream |
| Checksum.CleanInjective | topolib/fs.go:101-142 | such trees with equal checksums are equal |
| Checksum.SingleFileInjective | topolib/fs.go:101-142 | trees of one file each with equal checksums are equal, whatever the contents |
| Checksum.MergeFiles | topolib/fs.go:106-132 | any directory of two files or more shares its checksum with a directory of one file |
| Checksum.SplitFile | topolib/fs.go:106-132 | a file whose contents hold a header naming a possible later file shares its checksum with a directory of two |
| Checksum.PinnedDownIff | topolib/fs.go:101-142 | among directories as a walk lists them, the checksum singles one out if and only if it is empty or one file that hides no header of a possible later file |
| Checksum.EmptyNameHidesNothing | topolib/fs.go:106-132 | a file holding only the two marks is singled out: the header between them names no file |
| Checksum.NamedHeaderHides | topolib/fs.go:106-132 | a file holding the header of a file "b" is not |
| FsUpdaters.MakeChecksum | topolib/fs.go:101-142 | the incremental writes feed the hasher the frame of the whole tree |
| FsUpdaters.FsUpdater.constructor | topolib/fs_updater.go:137-147 | nothing is open and the disk is as it was |
| FsUpdaters.FsUpdater.GetTargetDir | topolib/fs.go:41-61 | in any entry order: a target directory if there is one, and the oldest if none has a zero time |
| FsUpdaters.FsUpdater.Cleanup | topolib/fs.go:63-80 | exactly the saved entries remain, or the first failure is reported and nothing saved is lost |
| FsUpdaters.FsUpdater.Promote | topolib/fs.go:82-99 | keeps an existing target, otherwise renames the directory to it; an error changes nothing |
| FsUpdaters.FsUpdater.Start | topolib/fs_updater.go:20-47 | a nil Start leaves the opened target, the oldest one, alone on disk, or nothing; and disk and database agree |
| FsUpdaters.FsUpdater.DoUpdate | topolib/fs_updater.go:106-135 | fails exactly when the temporary directory, the download, the checksum, or the rename or opening of a new target does; a failure keeps the open database, and with removals that succeed the whole disk; a success leaves exactly the target, with the download in it if it is new |
| FsUpdaters.UpdateOutcome | topolib/fs_updater.go:106-135 | the same for every outcome the relation allows, from any world |
| FsUpdaters.FsUpdater.Update | topolib/fs_updater.go:106-135 | the statements, with a failure at any stage, satisfy the update relation |
| FsUpdaters.UpdateKeepsAgreement | topolib/fs_updater.go:106-135 | with removals that succeed, disk and database agree after an update if they did before, and a failed one changes nothing |
| FsUpdaters.UpdatesKeepAgreement | topolib/fs_updater.go:92-103 | and for any number of updates, each failing at any stage or not |
| FsUpdaters.RestoresAgreementIff | topolib/fs_updater.go:118-131 | from any disk, a nil update ends in agreement if and only if its target was absent or is the open one |
| FsUpdaters.OneFailedRemoval | topolib/fs_updater.go:123-131 | a two-update history in which one failed removal ends with the open directory deleted |
| FsUpdaters.KeptTargetIsIdentical | topolib/fs.go:90-92 | a target that bears its own checksum and is kept holds what was downloaded, for directories the checksum tells apart |
| CrashSafety.NextKeeps | topolib/fs_updater.go:20-135 | every file-system step, failure and crash keeps: targets are whole downloads under their checksum |
| CrashSafety.CrashSafe | topolib/fs_updater.go:20-135 | in every run with failures and crashes anywhere, a target the system made came from a Download that returned nil, and Open was only ever called on such targets or ones there from the start |
| CrashSafety.OpenedWasDownloaded | topolib/fs_updater.go:106-129 | in every such run, what Open was called on, unless there from the start, is exactly what some earlier Download had left when it returned nil |
| CrashSafety.KeptIsFetched | topolib/fs.go:82-92 | in every such run, an existing target that Promote keeps and that was not there from the start is a directory with the contents just downloaded, for directories the checksum tells apart |
| UpdateRuns.UpdateIsRun | topolib/fs_updater.go:106-135 | every outcome of an update, whatever fails in it, is the end of a run of file-system steps from ready to ready |
| Bits.BigEndianRoundTrip | providers/software77_db.go:68-69 | a 32-bit number survives its network-order bytes |
| Bits.LastByte | providers/software77_db.go:35-37 | the number of an address is read most significant byte first |
| Bits.PrefixIsBlock | providers/software77_db.go:35-37 | a prefix matches exactly the addresses of its aligned block (section 3.1 of RFC 4632) |
| RangeSplits.SplitExact | providers/software77_db.go:71-74 | the cover of a range is the set of its maximal aligned blocks |
| RangeSplits.CoveredOnce | providers/software77_db.go:71-80 | each address of the range lies in exactly one block of the cover, each other address in none |
| PrefixTrees.AddFind | providers/software77_db.go:104-114 | adding a tag changes the answer exactly for addresses it matches more deeply than what was there |
| PrefixTrees.TreeIsScan | providers/software77_db.go:35-37 | the deepest tag equals a longest-match scan over everything ever added |
| PrefixTrees.ScanFindsLongest | providers/software77_db.go:35-37 | that scan yields a longest matching prefix, the earliest of its kind, or none when nothing matches (section 5.1 of RFC 4632) |
| RangeScans.AddRange | providers/software77_db.go:76-80 | storing the blocks of a row moves every answer as one step of the scan over the rows |
| RangeScans.RefinesRange | providers/software77_db.go:50-83 | a tree that refines the scan still does after a range is added |
| RangeScans.RefinesNetwork | providers/software77_db.go:85-97 | and after a CIDR block is added |
| RangeScans.WinnerWins | providers/software77_db.go:25-48 | an address is not found exactly when no range holds it; otherwise the range with the smallest block around it answers, the first among equals |
| RangeScans.DisjointAnswer | providers/software77_db.go:25-48 | disjoint ranges: the code of the one range that holds the address |
| RangeScans.WinnerExact | providers/software77_db.go:25-48 | and conversely a range that holds the address in the smallest block, first among equals, is the one that answers |
| RangeScans.NarrowestAnswersIff | providers/software77_db.go:76-80 | nested overlaps: the first range that stores the narrowest one's block answers, which is the narrowest itself if and only if no earlier range stores that block |
| RangeScans.NarrowestMayLose | providers/software77_db.go:76-80 | two overlapping rows where the wider one answers |
| RowMeanings.TakenLiterallyIff | providers/software77_db.go:58-69 | a row is loaded as the addresses it names if and only if its numbers fit 32 bits and are in order |
| RowMeanings.BeyondThirtyTwoBits | providers/software77_db.go:68-69 | a row of the number 2^32 is loaded as the address 0.0.0.0 |
| RowMeanings.ProperRowsLoad | providers/software77_db.go:50-83 | in-range, ordered rows always load, whatever they overlap |
| RowMeanings.FormsAgree | providers/software77_db.go:32-38 | the four-byte and the sixteen-byte form of an IPv4 address get the same answer, at the number of its four bytes |
| RowMeanings.OtherwiseIPv6 | providers/software77_db.go:32-38 | every other sixteen bytes are searched as IPv6 |
| RowMeanings.ContentsIff | providers/software77.go:98-154 | a directory loads exactly when both files can be read and no row of a known country has an unparsable column or reversed numbers |
| RowMeanings.LookupIsRow | providers/software77_db.go:25-83 | after a load of disjoint in-range rows, an IPv4 address in either form is answered with a code exactly when a row of that known country holds its number |
| RowMeanings.LookupIsLongestNetwork | providers/software77_db.go:85-97 | an IPv6 address is answered by the row of a known country with the longest matching network, the first of its length, and not found exactly when none matches |
| Software77.PutUint32 | providers/software77_db.go:68-69 | the array filled in place reads back as the number |
| Software77.AddressOf | providers/software77_db.go:56-69 | a row's number becomes the four bytes of its value modulo 2^32 |
| Software77.Software77DB.constructor | providers/software77_db.go:120-125 | an empty database refines the empty scan |
| Software77.Software77DB.Lookup | providers/software77_db.go:25-48 | the answer of the scan over all loaded ranges, and for a sixteen-byte IPv4 form that of its four bytes |
| Software77.Software77DB.AddNetwork | providers/software77_db.go:99-118 | in its family the block answers exactly the addresses it matches more deeply than what was there; the other family's tree does not change |
| Software77.Software77DB.AddIPv4Range | providers/software77_db.go:50-83 | an unknown country is skipped before parsing, bad numbers or a reversed range are errors that change nothing, any other row adds exactly its range |
| Software77.Software77DB.AddCover | providers/software77_db.go:71-82 | addresses out of order are an error that changes nothing; otherwise exactly the range between them is added |
| Software77.Software77DB.AddBlocks | providers/software77_db.go:76-80 | every block of the cover enters the IPv4 tree, in order, and the other tree is untouched |
| Software77.Software77DB.AddIPv6CIDR | providers/software77_db.go:85-97 | likewise for a CIDR row |
| Software77.Software77Provider.constructor | providers/software77.go:319-327 | a new provider has no database |
| Software77.Software77Provider.OpenV4 | providers/software77.go:98-125 | succeeds exactly when every row and the reading do, and then holds the rows' ranges in order |
| Software77.Software77Provider.OpenV6 | providers/software77.go:127-154 | likewise for the second file |
| Software77.Software77Provider.Open | providers/software77.go:79-96 | succeeds exactly when both files are readable and no row of a known country is bad; then a fresh database with their contents replaces the old one, which otherwise stays untouched |
| Software77.Software77Provider.Lookup | providers/software77.go:59-77 | not ready without a database, otherwise the scan's answer |
| Software77.Software77Provider.Shutdown | providers/software77.go:156-161 | no database is left |
| CountryCodes.NormalForms | topolib/country_codes.go:62-83 | normalizing is idempotent and ends in the empty string or a fixed point |
| CountryCodes.Replacements | topolib/country_codes.go:62-83 | in any case: ZZ, AP, EU are unknown, YU is CS, FX is FR, UK is GB, any other two characters are upper-cased, any other length is unknown |
| CountryCodes.UpperCase | topolib/country_codes.go:63 | upper-casing maps a..z to A..Z and nothing else |
| CountryCodes.Init | topolib/country_codes.go:99-110 | in any map order: every non-empty normalized code once, at the index its code names modulo 256 |
| CountryCodes.Intern | topolib/country_codes.go:101-108 | a new non-empty code is interned, one already known changes nothing |
| CountryCodes.StoredName | topolib/country_codes.go:37-39 | no looked-up code indexes out of the table, and up to 255 names it leads back to the name |
| CountryCodes.RoundTripsIff | topolib/country_codes.go:87-110 | the two tables are inverse on every lookup if and only if there are at most 255 distinct codes |
| CountryCodes.OrderInvisible | topolib/country_codes.go:87-110 | within that bound the map order of the build shows in no name, and known means listed |

## Left out

- HTTP handlers, JSON schemas, authentication, logging, CLI and configuration: shallow branching.
- Online providers and the download code of all providers: network, archives and regular expressions.
- topolib/http_client.go beyond a callback's three outcomes: the rate limiter and the HTTP client are not part of this model.
- topolib/caching_providers.go: the cache library is not part of this model.
- The internals of the pool, the country data, Double Metaphone, SHA-256 and the CSV reader; the range splitter and the tag tree are written out here and proved against a scan.
- Real time: no durations, no minimum dwell time in opened, no update schedule (`runBgUpdate`). `lastUsed` is not modelled.
- Panics inside provider code, and rows with too few columns.
- Non-atomic removal of directory trees, path syntax and permissions.
- An `Open` after `fsUpdater.Shutdown`: the Go code does not wait for a running update, so nothing is claimed about it.
- RowMeanings.LookupIsLongestNetwork: IPv4-mapped blocks in the IPv6 file are not modelled; a CIDR row is given by its family and the bits its mask keeps.
- CountryCodes.NormalForms: strings are ASCII, so Go's Unicode upper-casing is not modelled. `Alpha3ToCountryCode` and `Details` need the country data.
- Checksum.PinnedDownIff: file names that contain byte 1 are not considered, on either side.
- Software77.Software77DB.Lookup: a nil or otherwise malformed address is not modelled; what the tag tree library does with one is not part of this model.
- Software77.Software77Provider.Lookup: likewise once a database is loaded; before that it answers "not ready" for any address.
- CircuitBreakers.CircuitBreaker.SwitchState: the order of the stores is that of the transition system's operations; the contract states their joint effect.
- ResolveAnswers.CompleteAnswer: an address that is not an IP (`To16` gives nil) is the empty byte string, and all of these are equal.
- Vote.ResolveIPMerge: the country names copied into the result come from the country data.
