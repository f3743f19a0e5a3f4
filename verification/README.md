# Portmaster base: verified models

Dafny models of the self-contained algorithms in the `base` and `service/mgr` packages of the Portmaster
repository, with proofs of what they promise. Check the whole project with `dafny verify dfyconfig.toml`.

Four kinds of model are used, after the form of the code:

- **Protocols between goroutines** are transition systems. A state holds the shared objects (mutexes, flags,
  channels, counters), the place of every caller, and history variables no step reads. An action is one
  operation on a shared object. `Reachable` is the set of states reached by any schedule of any number of
  callers, and the theorems are about all of it. `CallLimiter`, `CallLimiter2`, `LogPipeline`, `WorkerMgr`,
  `Group` and `ConfigGetters` are of this kind.
- **Objects changed in place** are classes with a `Valid()` invariant and a function that gives the abstract
  value: `Container` (a flat byte sequence), `ConfigMaps` (nested maps on the heap, as trees), `ConfigStore`
  (the registered options), `Registry`, `WriteCache` (one map of last writes), `WorkerRing` (a bag).
- **Loops** that only compute are methods with invariants: `LogWriter`, and validation in `ConfigStore`.
- **Values** are datatypes and functions with lemmas: `Varint` and `ConfigTree`.

Loops over Go maps take the keys in an arbitrary order, so what is proved of them holds for every order.

## Where the code and its promises differ

The models follow the code. These promises hold only under a condition; each has a lemma that gives the exact
condition or a concrete case.

- `CallLimiter.Do` is said to return when `f` finishes (base/utils/call_limiter.go:28-30). A call that joins
  after `f` has returned and before the leader takes `inLock` again returns without an `f` of its own:
  `CallLimiter.OwnExecutionIff`, reachable by `CallLimiter.LateIsReachable`.
- `CallLimiter2.Do` promises the same (base/utils/call_limiter2.go:28-30). A caller that draws its ticket
  between the end of `f` and the move of the slot can leave with nothing: `CallLimiter2.EmptyHandedIff`,
  `CallLimiter2.WindowIsReachable`.
- `WorkerMgr.Go` is said to execute the worker (service/mgr/workermgr.go:251-254). A call that clears a lone
  delay before the loop waits for it undisturbed can be lost: `WorkerMgr.GoLostIff`, with a delay set while the
  worker executes (`WorkerMgr.GoDuringWorkIsLost`) or right before the call (`WorkerMgr.GoAfterFreshDelayIsLost`).
- `GetNextBlock` answers a length of 2^63 or more with an empty block and no error, because the length is
  converted to a negative int (base/container/container.go:309-315): `Container.BlockLengthIff`,
  `Container.HugeLengthIsEmpty`.
- `AppendContainerAsBlock` with the container itself appends its length once more behind the block
  (base/container/container.go:85-88): `Container.Container.AppendContainerAsBlock`.
- Saving and loading loses a nil string array, which is written as null and refused (base/config/validate.go:188):
  `ConfigStore.SaveLoadIff`, `ConfigStore.NilArrayIsLost`.
- Keys that path.Clean changes or that begin with a slash, such as "a//b" and "/a", are not given back by expanding and flattening, and their options are
  unset by saving and loading (base/config/persistence.go:117-183): `ConfigMaps.ExpandThenFlatten`,
  `ConfigStore.SaveLoadIff`, `ConfigTree.DoubleSlashIsLost`, `ConfigTree.LeadingSlashIsLost`,
  `ConfigStore.DoubleSlashIsUnset`.
- The two cleaners are meant to do the same (base/config/persistence.go:185-204); a value named "a/b" is kept by one and
  dropped by the other: `ConfigTree.CleanersCommuteIff`, `ConfigTree.SlashNameIsDropped`.
- The user config is said to be prioritized (base/config/set.go:76), but the release level prefers the default
  value (base/config/release.go:77-85): `ConfigGetters.LevelAgreesIff`, `ConfigGetters.LevelCanDisagree`.
- A put that is delayed counts as done, and a failing write of a later flush or eviction is logged and forgotten
  (base/database/interface_cache.go:106-115): `WriteCache.Interface.Flush`, `WriteCache.Interface.Evict`.
- `FlushCache` is said to write and clear the write cache (base/database/interface_cache.go:74). Its check is the wrong
  way round, so it returns exactly when writes are delayed: `WriteCache.Interface.FlushCache`.
- A query of the runtime registry asks all providers it concerns, except when the longest registered prefix is a
  key without a trailing slash and others continue the query (base/runtime/registry.go:288-292):
  `Registry.Registry.CollectProviderByPrefix`, `Registry.QueryCanMiss`, `Registry.MissOne`.

## Model

| member | source | states |
|---|---|---|
| CallLimiter.Safety | base/utils/call_limiter.go:31-87 | For any number of calls and any interleaving: no unlock hits an unlocked mutex, at most one `f` runs, the leader finds `outLock` free, and each mutex has at most one call about to unlock it, which finds it locked |
| CallLimiter.HandOver | base/utils/call_limiter.go:36-42 | While a call is at its deferred decrement, the leader has taken `inLock` again and no call holds it for itself; the last leaver releases exactly that hand-off lock, with nobody left inside |
| CallLimiter.NoDeadlock | base/utils/call_limiter.go:31-87 | No reachable state with an unfinished call is deadlocked, provided `f` ends and does not call `Do` |
| CallLimiter.StepWork | base/utils/call_limiter.go:31-87 | Every step of a call reduces the work left |
| CallLimiter.RunsAreFinite | base/utils/call_limiter.go:31-87 | A run without new arrivals takes at most as many steps of calls as there was work left, so it is finite |
| CallLimiter.MoveOn | base/utils/call_limiter.go:77-83 | A call that waits only for the clock can take its next step after enough time |
| CallLimiter.Completion | base/utils/call_limiter.go:31-87 | From every reachable state all calls under way can be brought to return |
| CallLimiter.ReturnsAfterOwnBatch | base/utils/call_limiter.go:44-58 | A call has returned only if the execution of the batch it joined has finished; executions finish in the order of their batches |
| CallLimiter.OwnExecutionIff | base/utils/call_limiter.go:28-58 | The execution of the batch a call joins finishes after its joining if and only if the leader was not past `f` when it joined; by the time the call has returned it has finished in either case |
| CallLimiter.ExecutionWhileWaitingIff | base/utils/call_limiter.go:28-58 | Any execution at all finishes between a call's joining and its return if and only if the leader was not past `f` when it joined |
| CallLimiter.NothingInWindow | base/utils/call_limiter.go:68-75 | A call that joins while the leader is past `f` sees no execution finish until it has returned |
| CallLimiter.LateIsReachable | base/utils/call_limiter.go:68-75 | The state in which a call joins although `f` is over does occur |
| CallLimiter.NoLateJoin | base/utils/call_limiter.go:71-74 | While a call joins, no member of the batch is leaving and its leader has not re-taken `inLock`: newcomers never enter a batch that is closed |
| CallLimiter.HistoryGrows | base/utils/call_limiter.go:31-87 | Over any run the number of finished executions never shrinks, and a call stays in the batch it joined |
| CallLimiter.PauseKept | base/utils/call_limiter.go:77-83 | With a clock that does not go backwards, an execution starts at least `pause` after the end of the previous one |
| CallLimiter.NoOversleep | base/utils/call_limiter.go:77-83 | Nobody sleeps longer than that: as soon as `pause` since the last execution is over, the sleep is, and a leader that finds it over does not sleep |
| CallLimiter.PanicSkipsWait | base/utils/call_limiter.go:60-75 | A leader whose `f` panics never queues for `outLock` again, in any run |
| CallLimiter.LeavesByTurn | base/utils/call_limiter.go:36-58 | Every other call gets to its deferred decrement only by giving back `outLock`, which it alone holds |
| CallLimiter.RunsInv | base/utils/call_limiter.go:31-87 | The inductive invariant over mutexes, counter, batch phase and the place of every call is kept by all runs |
| CallLimiter2.NoOverlap | base/utils/call_limiter2.go:35-44 | `f` never overlaps itself and runs only under the flag and the write lock |
| CallLimiter2.SlotLag | base/utils/call_limiter2.go:55-62 | The slot counter lags the finished executions by at most one |
| CallLimiter2.BundledLeavesLater | base/utils/call_limiter2.go:46-51 | A bundled call has left only if the slot moved past the value it read |
| CallLimiter2.PauseKept | base/utils/call_limiter2.go:64-70 | Successive executions are at least `pause` apart |
| CallLimiter2.NoOversleep | base/utils/call_limiter2.go:64-70 | The sleep is over as soon as `pause` since the last execution is, and at once if it is already |
| CallLimiter2.NeverWaitsForNobody | base/utils/call_limiter2.go:46-62 | While a call polls for its slot to end, some call has the executing flag or is about to move the slot |
| CallLimiter2.NoDeadlock | base/utils/call_limiter2.go:31-74 | Whenever a call is unfinished, some call can take a step that brings it closer to its return; idle polling is never all there is |
| CallLimiter2.Completion | base/utils/call_limiter2.go:31-74 | From every reachable state all calls under way can be brought to return |
| CallLimiter2.EmptyHandedIff | base/utils/call_limiter2.go:28-62 | A call about to be bundled can leave without an execution finishing in its own call if and only if it drew its ticket after an `f` ended and before the slot moved, and none has finished since |
| CallLimiter2.LeaveEmptyHanded | base/utils/call_limiter2.go:46-62 | In that window the steps to the empty-handed return always exist |
| CallLimiter2.WindowIsReachable | base/utils/call_limiter2.go:55-62 | The window does occur |
| CallLimiter2.RunsInv | base/utils/call_limiter2.go:31-74 | The inductive invariant over flag, slot, lock and the place of every call is kept by all runs |
| Varint.PackRoundTrip | base/container/container.go:48-55 | Decoding an encoded 64-bit number returns it and its length, whatever follows, and ten bytes hold it (unsigned LEB128, section 7.6 of DWARF 5) |
| Varint.PackFormat | base/container/container.go:48-55 | The encoding has seven bits a byte, the lowest first, a high bit on all bytes but the last, and no byte too many |
| Varint.UnpackIs | base/container/container.go:360-368 | For all data: the number in that format up to the first byte without a high bit if it takes at most ten bytes and fits 64 bits, else an overflow; without such a byte the data is too small, or overflows if it is longer than ten bytes |
| Varint.UnpackBound | base/container/container.go:360-368 | A decoded number fits 64 bits and consumes between one and ten of the bytes given |
| Varint.TenBytesSuffice | base/container/container.go:360-362 | Peeking ten bytes decides whether there is a number and which one, as all the data would |
| Varint.TenBytesErrorIff | base/container/container.go:360-368 | The kind of error is the same as well, except exactly for more than ten bytes that all continue the number |
| Container.Container.constructor | base/container/container.go:20-31 | A new container shows the concatenation of the given slices |
| Container.Container.Prepend | base/container/container.go:34-40 | The data appears in front of the view, for every segmentation |
| Container.Container.RenewCompartments | base/container/container.go:205-211 | Making room in front never changes the view, and the slot the next prepend overwrites holds nothing |
| Container.Container.Append | base/container/container.go:43-45 | The data appears behind the view |
| Container.Container.AppendContainer | base/container/container.go:80-82 | All slots are copied and yet only the view is added, also when a container is appended to itself |
| Container.Container.AppendNumber | base/container/container.go:53-55 | The encoded number appears behind the view |
| Container.Container.PrependNumber | base/container/container.go:48-50 | The encoded number appears in front of the view |
| Container.Container.AppendAsBlock | base/container/container.go:68-71 | Length and data appear behind the view, in this order |
| Container.Container.PrependAsBlock | base/container/container.go:74-77 | Length and data appear in front of the view, in this order |
| Container.Container.AppendContainerAsBlock | base/container/container.go:85-88 | A block of the other container's view is appended; for the container itself, the block and its length once more |
| Container.Container.PrependLength | base/container/container.go:232-234 | The view becomes one block |
| Container.Container.HoldsData | base/container/container.go:91-98 | True exactly when the view is not empty |
| Container.Container.Length | base/container/container.go:101-106 | The length of the view |
| Container.Container.CheckOffset | base/container/container.go:223-227 | Wrapping the offset to the middle restores the invariant and never changes the view |
| Container.Container.Clean | base/container/container.go:199-203 | Dropping consumed slots never changes the view |
| Container.Container.CompileData | base/container/container.go:114-126 | Returns the whole view, keeps it, and leaves one slot |
| Container.Container.Peek | base/container/container.go:237-262 | The first n bytes of the view or all there are, across any slots, without consuming |
| Container.Container.Skip | base/container/container.go:289-306 | Consumes exactly n bytes or all there are |
| Container.Container.Get | base/container/container.go:129-136 | Returns and consumes exactly n bytes, or fails and consumes nothing; a negative n reads nothing without an error |
| Container.Container.GetAll | base/container/container.go:139-144 | Returns the view and leaves nothing |
| Container.Container.GetMax | base/container/container.go:157-161 | Returned and remaining bytes are the old view; as many are returned as there are, up to n |
| Container.Container.WriteToSlice | base/container/container.go:164-182 | Fills the slice with the front of the view, touches nothing behind it, consumes exactly that, and reports "emptied" if and only if the old view fits |
| Container.Container.PeekContainer | base/container/container.go:265-287 | A fresh container over the first n bytes; nil exactly if n is negative or there are fewer |
| Container.Container.GetAsContainer | base/container/container.go:147-154 | As PeekContainer, and consumes the bytes if and only if it succeeds |
| Container.Container.GetNextN64 | base/container/container.go:360-368 | Reads the number the flat view starts with, and consumes exactly its bytes unless it fails |
| Container.Container.GetNextBlock | base/container/container.go:309-315 | Reads the block the flat view starts with; short data leaves the length consumed; the block has the announced length if and only if that length fits an int and the data is there |
| Container.BlockRoundTrip | base/container/container.go:68-77 | A framed block in front is read back exactly, whatever follows |
| Container.BlockLengthIff | base/container/container.go:309-315 | For every view that starts with a number: the block read has that length if and only if it is below 2^63 and the data is there |
| Container.HugeLengthIsEmpty | base/container/container.go:309-315 | A length of 2^63 gives an empty block and no error |
| Container.BlocksRoundTrip | base/container/container.go:68-77 | On the flat bytes: any list of framed blocks is read back in order, and the bytes behind it stay untouched |
| Container.BlocksSnoc | base/container/container.go:68-71 | Appending a block behind framed blocks frames the longer list, so lists built by appending are those read back |
| Container.GetBlocks | base/container/container.go:309-315 | Repeated GetNextBlock, for every segmentation, reads what the flat view says, up to the first error |
| Container.AppendBlocks | base/container/container.go:68-71 | Appending a list block by block adds the framed list behind the view |
| Container.PrependBlocks | base/container/container.go:74-77 | Prepending a list block by block in reverse adds the framed list in front of the view |
| Container.AppendedBlocksComeBack | base/container/container.go:68-71 | Blocks appended to an empty container come back from as many GetNextBlock calls, and what was appended behind them stays |
| Container.PrependedBlocksComeBack | base/container/container.go:74-77 | Blocks prepended in reverse come back in order, and what was in the container stays |
| LogPipeline.TokenConservation | base/log/input.go:73-79 | Producers between flag and send, plus tokens in the channel, plus the writer between receive and reset, are one if the flag is set and none otherwise, in every reachable state |
| LogPipeline.WakeNeverBlocks | base/log/trace.go:102-105 | A wake-up send always finds the slot free: `log` never takes its default branch and `Submit` never blocks there |
| LogPipeline.EveryCallSends | base/log/input.go:58-71 | In every reachable state the lines sent are exactly the lines of the calls past their send, one each, in the order in which they sent; so with log and Submit no call returns without its line |
| LogPipeline.StepsForward | base/log/input.go:58-79 | Only steps of its own move a call, at most four, and it keeps its line |
| LogPipeline.LaterCallComesBehind | base/log/input.go:58-71 | A call that begins after another one has returned comes behind it in the log |
| LogPipeline.ForceMakesRoom | base/log/output.go:131-152 | A call that finds the buffer full gets the writer to work by one or two meetings, and then its line is sent |
| LogPipeline.IdleWriterIsWoken | base/log/output.go:131-139 | A waiting writer with lines in the buffer has a wake-up coming, within two steps of producers past their send |
| LogPipeline.Drains | base/log/output.go:126-197 | From every reachable state without shutdown, the writer and the producers under way can bring it about that exactly the lines sent so far, which are those of EveryCallSends, are written |
| LogPipeline.ComesToRest | base/log/output.go:126-197 | Once all calls have returned, the writer alone gets to waiting without a wake-up, with everything written |
| LogPipeline.WindsDown | base/log/output.go:199-205 | After a shutdown the writer alone gets to its end, and writes all lines sent before |
| LogPipeline.StopsEmpty | base/log/output.go:199-224 | The writer stops only after a shutdown and with an empty buffer, all lines sent up to then received |
| LogPipeline.ProducerStuckIff | base/log/input.go:58-79 | A producer in mid-call is stuck if and only if the buffer is full and the writer has stopped after shutdown |
| LogPipeline.NothingLost | base/log/output.go:150-180 | Lines come out in the order they were sent; the rest is still in the buffer. With EveryCallSends: the line of every call past its send has come out, once, or is in the buffer |
| LogPipeline.WrittenStandsForSent | base/log/output.go:126-205 | In every reachable state the messages of the rounds so far and of the final drain stand for a prefix of the lines sent, and what follows is in the current round or the buffer |
| LogPipeline.RunsInv | base/log/output.go:99-198 | Conservation, order and "no line without a signal" are kept by all runs |
| LogWriter.WriteRound | base/log/output.go:126-187 | Expanding every message to duplicates+1 copies gives the lines of a round back up to Equal; each message shows the first line it stands for, no two in a row are Equal, traced lines are never merged |
| LogWriter.Writer | base/log/output.go:126-197 | The same for every round of any split of the stream: one part of the output per round, with heads and without Equal neighbours, and all of it expands to the stream up to Equal |
| LogWriter.WriteFinals | base/log/output.go:199-205 | The final drain writes every line as a message of its own |
| LogWriter.EqualIff | base/log/logging.go:96-110 | Lines are merged if and only if they carry no tracer and differ in nothing but the timestamp |
| LogWriter.SameLinesIff | base/log/logging.go:96-110 | So the lines that messages stand for are the old ones up to the timestamps of untraced lines |
| LogWriter.HeadsExpand | base/log/output.go:163-176 | Messages that cover stretches of Equal lines lose nothing |
| LogWriter.CompactUnique | base/log/logging.go:96-110 | There is only one way to write the lines of a round with heads and without two Equal messages in a row |
| Group.OneActiveCaller | service/mgr/group.go:119-186 | At most one caller is ever starting or stopping modules, and only while the state says so |
| Group.RefinesEpisodes | service/mgr/group.go:119-241 | In every stable state, the module calls made are those of a possible history of whole start-ups, failed starts and shut-downs, one after the other: a failed start at i stops i..0 in reverse and touches no later module |
| Group.StartsMatchStops | service/mgr/group.go:119-241 | In off and invalid every module has as many stop as start calls, in running exactly one more start |
| Group.ReadyMeansStarted | service/mgr/group.go:243-246 | When ready, the last thing that happened is that every module was started, in order and with success |
| Group.InvalidIsFinal | service/mgr/group.go:119-186 | From invalid no step of anyone calls a module or changes the state |
| Group.InvalidIff | service/mgr/group.go:148-184 | A stable group is invalid if and only if some stop of some module has ever failed, in a shut-down or in the rollback of a failed start |
| Group.StartOutcomes | service/mgr/group.go:119-160 | What Start returns, in the step it returns in: nil means running, a module error ends a failed start of its own and leaves off or invalid by its stops, all else changes nothing. That it does return is CallsReturn |
| Group.StopOutcomes | service/mgr/group.go:163-186 | What Stop returns, in the step it returns in: nil means off, an error ends a shut-down of its own in which a stop failed, all else changes nothing |
| Group.SwapDecides | service/mgr/group.go:129-131 | A compare-and-swap succeeds exactly in off for Start and in running for Stop; one that fails refuses the call in that very step and changes nothing |
| Group.AnswersAtOnce | service/mgr/group.go:121-132 | A call alone that has nothing to do or cannot do it returns within three steps, with nil, the invalid error or the unsuitable error by the state, and changes nothing |
| Group.StepsForward | service/mgr/group.go:119-241 | Only steps of its own move a call, and each brings it closer to its return |
| Group.CallsReturn | service/mgr/group.go:119-241 | In any run, a call takes at most 2n+3 steps of its own with n modules, and it has returned when those it had left are taken |
| Group.LoneCall | service/mgr/group.go:119-186 | From every stable state a lone caller gets through every episode that is possible in it, with the module calls, the new state and the outcome of that episode |
| Group.LoneStart | service/mgr/group.go:134-159 | A lone Start of a group that is off, whose modules all succeed, returns nil; the group is running, and exactly the n modules were started, in order |
| Group.EveryHistoryHappens | service/mgr/group.go:119-186 | Every possible history of episodes is reached, so RefinesEpisodes is exact |
| Group.CallOrder | service/mgr/group.go:134-241 | From one module call to the next, in any run: starts go up by one, a failed start is stopped itself first, stops go down by one, and after the first module the next call is its start |
| Group.BalanceTrace | service/mgr/group.go:134-156 | A start-up adds one start per module, a shut-down one stop, a failed start cancels out |
| Group.RunsInv | service/mgr/group.go:119-241 | The refinement to episodes is kept by all runs |
| WorkerMgr.NoStaleWait | service/mgr/workermgr.go:157-192 | Whenever the loop waits on an action that is not the top-priority one any more, a token makes it look again |
| WorkerMgr.ActionPriority | service/mgr/workermgr.go:157-175 | With no token and no client at work, the loop waits for the delay if one is set, else for the repeat if one is set, and on keep-alive only with neither |
| WorkerMgr.DelayThenRepeat | service/mgr/workermgr.go:157-192 | With a delay and a repeat set, the delay fires first and the repeat goes on after it |
| WorkerMgr.EndsIff | service/mgr/workermgr.go:157-192 | The loop ends exactly at a selection with no delay, no repeat and no keep-alive, or by cancellation |
| WorkerMgr.ScheduleIsAsked | service/mgr/workermgr.go:255-338 | In any run the schedule is the one asked for: the last Repeat, the last Delay unless it ran out or a Go came after it, and keep-alive for good from the first KeepAlive on, or from a Go |
| WorkerMgr.ExecutionsAccounted | service/mgr/workermgr.go:157-281 | In any run the executions are as many as timers fired and run tokens were taken, and no Go causes more than one |
| WorkerMgr.NoGoLost | service/mgr/workermgr.go:179-201 | With keep-alive a run token disappears only by a step that runs the worker, and the loop ends only by cancellation, over any run |
| WorkerMgr.GoIsKept | service/mgr/workermgr.go:255-281 | A Go on a live scheduler with keep-alive is followed by an execution, is pending, or was overtaken by cancellation |
| WorkerMgr.PendingRunIsServed | service/mgr/workermgr.go:157-201 | A pending run token leads to a worker execution in at most five steps of loop and lock holder |
| WorkerMgr.LostIff | service/mgr/workermgr.go:157-192 | With a request pending, the loop left to itself loses it if and only if it has ended, or nothing is scheduled and it is about to select |
| WorkerMgr.GoLostIff | service/mgr/workermgr.go:251-281 | At the call: whatever the loop does during and after it, a Go can come to nothing if and only if the loop has ended, or only a delay is scheduled and the loop has not started to wait for it undisturbed |
| WorkerMgr.GoAfterFreshDelayIsLost | service/mgr/workermgr.go:272-303 | A Go right after the first Delay of a fresh scheduler can be lost |
| WorkerMgr.GoDuringWorkIsLost | service/mgr/workermgr.go:272-281 | A run in which Go overtakes a lone delay during an execution and is lost |
| WorkerMgr.RunsInv | service/mgr/workermgr.go:134-338 | The token invariant is kept by all runs |
| ConfigTree.PutLaw | base/config/persistence.go:148-183 | After an insert the key has the value, every key that is a proper prefix or an extension of it is gone, and nothing else changed, for every tree |
| ConfigTree.PutTidy | base/config/persistence.go:149-183 | Inserting leaves no empty section |
| ConfigTree.TreeKeysPrefixFree | base/config/persistence.go:149-183 | The flat keys a tree holds values under never extend each other |
| ConfigTree.TidyUnique | base/config/persistence.go:139-146 | Trees without empty sections are determined by the values they hold |
| ConfigTree.TreeUnique | base/config/persistence.go:139-146 | A flat config has at most one tree that holds all of it without empty sections: for configs whose keys do not extend each other, every order of expanding leads to the same tree |
| ConfigTree.FlatUnique | base/config/persistence.go:149-183 | There is at most one flat config with the values a tree holds under flat keys |
| ConfigTree.JoinStep | base/config/persistence.go:120-121 | path.Join of a section key and a slash-free name cleans the name behind the parts of the section, for every name |
| ConfigTree.CleanedLaws | base/config/persistence.go:120-121 | path.Clean drops empty parts and ".", and keeps a name until ".." takes it back |
| ConfigTree.CleanedParents | base/config/persistence.go:120-121 | With no name to take back, ".." stays in front of a relative path and is dropped at the root |
| ConfigTree.KeyOfIs | base/config/persistence.go:117-132 | The key flattenMap builds level by level is the path cleaned as a whole |
| ConfigTree.StableIff | base/config/persistence.go:117-183 | A key survives being split and joined if and only if it is stable: empty, or unchanged by path.Clean and without a slash in front |
| ConfigTree.FlatKeyStable | base/config/persistence.go:117-183 | A key that was flattened once does not change any more |
| ConfigTree.FlattenedIff | base/config/persistence.go:110-146 | Whatever the order of iteration: after expanding and flattening no key is missing if and only if no key extends another one and every key is stable; then the config is the old one |
| ConfigTree.DoubleSlashIsLost | base/config/persistence.go:117-183 | The key "a//b" extends no key and comes back as "a/b" |
| ConfigTree.LeadingSlashIsLost | base/config/persistence.go:117-183 | path.Clean keeps the key "/a", and it comes back as "a" |
| ConfigTree.CleanKeepsRegistered | base/config/persistence.go:206-234 | For every tree and name: the hierarchical cleaner keeps exactly the values with a slash-free name under a registered key |
| ConfigTree.CleanersCommuteIff | base/config/persistence.go:185-234 | For every tree: cleaning after flattening and flattening after cleaning have the same possible results, over all orders of iteration, if and only if every value with a slash in its name and a registered key has a twin of the same content with a plain name |
| ConfigTree.SlashNameIsDropped | base/config/persistence.go:220-230 | A value named "a/b" under the registered key "a/b" is kept by the flat cleaner and dropped by the hierarchical one |
| ConfigTree.CleanEmptyIff | base/config/persistence.go:206-234 | A section is reported empty exactly when no value with a plain name in it has a registered key, for every tree |
| ConfigTree.CleanTidy | base/config/persistence.go:206-234 | No empty section survives below the root |
| ConfigMaps.ConfigMap.PutParts | base/config/persistence.go:152-182 | On nested maps changed in place: exactly the insert on trees, with no map shared or lost |
| ConfigMaps.ConfigMap.PutValue | base/config/persistence.go:148-183 | The same for a key split at its slashes |
| ConfigMaps.ConfigMap.CleanSubMap | base/config/persistence.go:206-234 | In every order of iteration the maps become what the tree cleaner keeps, and "empty" is returned exactly when nothing remains |
| ConfigMaps.FlatConfig.FlattenMap | base/config/persistence.go:117-132 | In every order of iteration and for all names: each value of the section ends up under its joined key or behind another one of the same key, and other keys stay |
| ConfigMaps.FlatConfig.CleanFlattenedConfig | base/config/persistence.go:185-196 | Exactly the registered keys remain |
| ConfigMaps.Flatten | base/config/persistence.go:110-115 | Every value's key is there, and every key has a value that belongs under it, for all names |
| ConfigMaps.Expand | base/config/persistence.go:139-146 | The tree holds the values of the flat config if and only if no key extends another one; it never holds anything else and has no empty section |
| ConfigMaps.ExpandThenFlatten | base/config/persistence.go:110-146 | Expanding and flattening is the identity, in every order of iteration, if and only if no key extends another one and every key is stable |
| ConfigStore.Validate | base/config/validate.go:83-216 | A string or bool is accepted, as it is, if and only if the type, the possible values, the regex of a string and the validation function admit it; an array if and only if every entry passes the regex and, behind a regex, the possible values, and the validation function admits it; a list only as the array of its strings. The loops find the first offending entry |
| ConfigStore.StringAcceptedIff | base/config/validate.go:84-104 | The exact condition for a string, what is stored, and which check gives the error |
| ConfigStore.BoolAcceptedIff | base/config/validate.go:183-187 | The exact condition for a bool, and what is stored |
| ConfigStore.ArrayAcceptedIff | base/config/validate.go:120-135 | The exact condition for a string array, nil or not, and what is stored |
| ConfigStore.ListAcceptedIff | base/config/validate.go:105-119 | A list is accepted if and only if all its entries are strings and their array is, with the same result |
| ConfigStore.AcceptsOwnData | base/config/validate.go:19-34 | Validation accepts what getData returns and gives the same value |
| ConfigStore.JsonRoundTrip | base/config/validate.go:83-216 | A stored value is accepted again in its JSON form, except exactly the nil string array |
| ConfigStore.NilArrayIsLost | base/config/validate.go:119-133 | A nil string array is valid, its saved form is not |
| ConfigStore.Settings.Register | base/config/registry.go:65-106 | An option is registered exactly if it has a name, a key, a description, a type, a regex that compiles, if any, and a valid default; the regex is made of the possible values if none is declared; the option starts without a user value |
| ConfigStore.RegisteredEnforces | base/config/registry.go:79-92 | An option registered with possible values always has a regex, and so its array entries are checked |
| ConfigStore.RegexIs | base/config/registry.go:79-92 | The regex is the declared one, or one that takes one of the possible values from the start of the text to its end |
| ConfigStore.AlternativesArePrinted | base/config/registry.go:79-92 | Between its bars stand exactly the printed possible values, in order |
| ConfigStore.AcceptedIsAllowed | base/config/validate.go:83-216 | Whatever a registered option accepts is among its possible values, entry by entry for a string array |
| ConfigStore.Settings.ActiveIsAllowed | base/config/validate.go:119-133 | No option ever holds a user value that is not among its possible values |
| ConfigStore.NoRegexNoCheck | base/config/validate.go:124-133 | Without a regex, any entries of a string array would be accepted |
| ConfigStore.Setting.Replace | base/config/set.go:88-101 | The option holds the validated new value or nothing, and the error is reported exactly when the value is refused |
| ConfigStore.Settings.ReplaceConfig | base/config/set.go:76-111 | Every option gets exactly what the new config says, and exactly the refused values are reported |
| ConfigStore.Settings.SetConfigOption | base/config/set.go:156-191 | Sets or unsets one option and saves; an unknown key or a refused value changes and saves nothing; if the file cannot be written an error is returned and the new value is in force all the same |
| ConfigStore.MapToJson | base/config/persistence.go:134-137 | The file holds values of the config only, and all of them exactly when no key extends another |
| ConfigStore.Settings.SaveConfig | base/config/persistence.go:64-97 | The same for the values the user has set, collected in any order |
| ConfigStore.JsonToMap | base/config/persistence.go:100-108 | A flattening of the file, for all names in it |
| ConfigStore.Settings.LoadConfig | base/config/persistence.go:30-59 | Every option holds what the flattened file says for it; the load fails exactly if errors matter and there are some, and the new values are in force all the same |
| ConfigStore.Settings.SaveThenLoad | base/config/persistence.go:30-97 | On the registered options themselves: saving and then loading leaves every one as it was if and only if no key of a set option extends another one, all of them are stable, and none is set to a nil string array |
| ConfigStore.SaveLoadIff | base/config/persistence.go:30-97 | For every flattening of a saved file, loading it restores the value of every option, set or unset, if and only if no key of a saved value extends another one, all of them are stable, and no saved value is a nil string array |
| ConfigStore.SaveLoadErrors | base/config/persistence.go:45-48 | With stable keys that do not extend each other, exactly the nil string arrays are reported as invalid |
| ConfigStore.DoubleSlashIsUnset | base/config/persistence.go:64-108 | A value saved under "a//b" is missing from the loaded config |
| ConfigGetters.CachedAgrees | base/config/get.go:52-72 | In every interleaving, a getter that sees its flag set caches the resolved value unless a setter has changed something and not yet reset the flag |
| ConfigGetters.QuietCall | base/config/get-safe.go:11-34 | With no setter in between and whatever other getters do, a call that starts after all changes are signalled returns exactly what getValueCache resolves |
| ConfigGetters.QuietCallReturns | base/config/get.go:30-48 | What such a call returns: for a missing option or another type no value, so the fallback of the getter; the user value exactly if there is one and the release level admits the option, else the default, else the fallback |
| ConfigGetters.QuietCallEnds | base/config/get.go:61-71 | Such a call can always go on until it returns, at most after another getter that is reading the option, unless a setter holds the option or is exchanging the flag |
| ConfigGetters.SetAlone | base/config/set.go:156-191 | A setter alone changes exactly the user or the default value of its option and resets the flag of every getter |
| ConfigGetters.SetThenGet | base/config/get-safe.go:11-34 | After a setter is through, the next call of every getter of the option returns what was set, whatever it had cached: a user value if the release level admits the option, a default value if no user value does |
| ConfigGetters.RefusalChangesNothing | base/config/set.go:163-186 | The steps of a setter whose value is refused change no resolution, although they recompute the release level |
| ConfigGetters.LevelIsCurrent | base/config/release.go:77-97 | When no setter holds its option, the release level is 2 exactly if the default, user or fallback value, in this order, is "experimental", 1 exactly if it is "beta", and else 0 |
| ConfigGetters.LevelAgreesIff | base/config/release.go:77-97 | The release level follows the value getters see if and only if user and default value do not name different levels |
| ConfigGetters.LevelCanDisagree | base/config/release.go:77-85 | A user value "stable" with a default "beta" gives the beta level |
| ConfigGetters.StepInv | base/config/set.go:22-38 | Every step of every getter and setter keeps the invariant over flag, locks, level and cached values |
| Registry.LongestPrefixIs | base/runtime/registry.go:105-107 | The look-up finds the longest registered key the query starts with |
| Registry.OwnsIff | base/runtime/registry.go:268-282 | A provider answers for its own key, and for everything below it exactly when the key ends with a slash |
| Registry.ApartIff | base/runtime/registry.go:97-100 | Two registrations share no database key unless they are equal or one is a prefix key that begins the other |
| Registry.LookupFindsConflicts | base/runtime/registry.go:105-125 | Among registrations that share nothing, one longest-prefix look-up and one walk find every conflict |
| Registry.OwnerIsLongest | base/runtime/registry.go:268-282 | The owner of a key, if there is one, is its longest registered prefix; so there is at most one |
| Registry.PrefixKeyIsAlone | base/runtime/registry.go:288-292 | When the longest registered prefix of a query ends in a slash, no other provider can own a key under that query |
| Registry.QueryCanMiss | base/runtime/registry.go:288-292 | With "a" and "ab" registered, both can own keys under the query "a" |
| Registry.MissOne | base/runtime/registry.go:284-301 | With these two registered, the query "a" does not ask the provider at "ab" |
| Registry.Registry.Register | base/runtime/registry.go:101-144 | Refused exactly when an existing registration shares a database key with the new one; otherwise all stay apart |
| Registry.Registry.GetMatchingProvider | base/runtime/registry.go:268-282 | Exactly the provider that owns the key, or none if nobody does |
| Registry.Registry.CollectProviderByPrefix | base/runtime/registry.go:284-301 | Every provider the query concerns is asked if and only if the longest prefix is missing, ends in a slash, or nothing else continues the query |
| WriteCache.Interface.Evict | base/database/interface_cache.go:120-163 | Evicting an entry never changes what the last write of any key is; a pending write goes to the storage, and its key is lost exactly if the storage refuses it |
| WriteCache.Interface.CacheSet | base/database/interface_cache.go:206-221 | Caching a record, whatever it evicts, loses no key but those of refused writes |
| WriteCache.Interface.UpdateCache | base/database/interface_cache.go:187-227 | A write is delayed exactly if it is no delete and for the delayed database; a delete drops the cache entry, and the pending write with it if the cache runs its handler |
| WriteCache.Interface.Put | base/database/interface.go:269-304 | The last write of this key and no other changes exactly if no error is returned; each error has its exact condition; afterwards the key is lost if and only if it was a delete that left a delayed write behind |
| WriteCache.Interface.PutNew | base/database/interface.go:307-345 | The same with fresh metadata, so the key is never lost by it |
| WriteCache.Interface.Get | base/database/interface.go:155-202 | For every key that is not lost: the last write if it is valid and permitted, a refusal if it is not permitted, nothing if it is deleted; an expired record is shown exactly while it is cached. No secret record is shown without the internal permission, no crown jewel without the local one, and what is shown is cached |
| WriteCache.Interface.Flush | base/database/interface_cache.go:84-116 | Below the threshold nothing happens; otherwise the write cache is empty and exactly the keys of refused writes are lost, which are all of them without all permissions |
| WriteCache.Interface.FlushCache | base/database/interface_cache.go:74-82 | It changes nothing, ever: it goes on only when no writes are delayed, and then the write cache is empty |
| WriteCache.Run | base/database/interface_cache.go:84-227 | In every sequential run of puts, deletes, gets, evictions and flushes, with failing writes, all answers agree with a plain map of last writes for every key that is not lost, and it is stated which keys those can be |
| WriteCache.NothingLost | base/database/interface_cache.go:84-227 | Without failing writes, with all permissions and a cache that runs its handler on removal, no key is ever lost |
| WorkerRing.Manager.RegisterWorker | service/mgr/worker_info.go:23-52 | Adds exactly one entry, keeps all others, and grows exactly when no slot is free |
| WorkerRing.Manager.FindFree | service/mgr/worker_info.go:27-42 | The circular scan ends at a free slot if there is one, and otherwise has seen all |
| WorkerRing.Manager.Grow | service/mgr/worker_info.go:44-51 | The larger ring holds all entries and the new one, and the index is in range |
| WorkerRing.Manager.UnregisterWorker | service/mgr/worker_info.go:54-74 | Removes exactly one occurrence from anywhere in the ring, and nothing if there is none |
| WorkerRing.Manager.FindBackwards | service/mgr/worker_info.go:58-73 | The backward scan finds the entry wherever it is, or has seen all slots |

## Left out

- Transition systems: counters, serial numbers and epochs are unbounded; a timer or ticker may fire at any moment
  after it is armed, and operations on Go's memory between two shared operations are not separate steps.
- `CallLimiter` and `CallLimiter2`: `f` is assumed to end (by return or panic) and not to call `Do` again, and the
  clock not to go backwards.
- `LogPipeline`: the write trigger of scheduled logging (base/log/output.go:23-43), which may hold the writer back
  before it drains; the restart of the writer after a panic, the 10 ms idle limit of the final drain (it may stop
  whenever the buffer is empty), pre-start buffering and the adapters.
- `Group`: manager contexts, log output and `Add` after construction; waiting for workers is part of the outcome
  of a stop. `EnsureStartedWorker` and `EnsureStoppedWorker` retry on an unrecoverable state.
- `WorkerMgr`: durations, error handlers and worker results; `Stop` is cancellation. No claim is made that every
  delay fires: `Ack` clears a delay even if it was just replaced.
- `Container`: slots are values, so writes through a slice shared with a caller are not visible. `Replace`,
  `UnmarshalJSON` and `carbonCopy` do not keep the invariant on the offset or only copy; `GetNextN8`, `GetNextN16`,
  `GetNextN32`, the `Int` variants and `WriteAllTo` (I/O) add nothing new. The source of the varint package is not
  part of this model; the format is taken from its standard.
- Container.Container.Peek: a positive amount needs a slot; the source panics on a container without slots
  (base/container/container.go:244). `Get`, `GetMax`, `GetNextN64` and `GetNextBlock` inherit this.
- ConfigMaps.ConfigMap.PutParts: goes down the path by recursion where the source has a loop, because the footprint
  of every map on the path has to grow.
- ConfigMaps.FlatConfig.FlattenMap: where several values fall on one key, any of them may be the one that stays.
- `ConfigStore`: options of type int and any, migrations, restart annotations, default values set at run time,
  change events and update pushes. JSON encoding is a function on values (arrays become lists, nil becomes null);
  strings are assumed to be valid UTF-8, and reading and writing the file are left out. The regex, the possible
  values and the validation function are oracles; the panic of a nil value compared with possible values is not
  modelled.
- `ConfigGetters`: all options are registered before any getter is made, and one getter closure is not called twice at
  once. A setter's writes to one option under its lock are one step.
- `Registry`: the order of walks, push functions, and what providers answer; the radix tree is its specification.
- WriteCache.Interface.Put: relative expiry, the times of creation and modification, hooks and subscriptions; records
  are values, not shared pointers. Whether the cache library runs its handler when an entry is removed by name is a
  parameter; the library is not part of this model, and what it evicts is arbitrary.
- `WriteCache`: `ClearCache`, `Interface.Delete` and concurrent calls.
- `WorkerRing`: workers are compared by identity; the lock and the reports about workers are left out.
- The firewall, network, UI, updater and platform parts of the repository: I/O or foreign calls.
