# FerricStore client: a verified model of its transport core

The FerricStore TypeScript SDK speaks a native binary protocol. Most of it builds commands; this
project models the part that moves them: the planner that reduces a batch to a sparse dependency
list, the executors that run it, the batches in flight as a whole, the connection with its credits, write queue and late responses,
the reassembly of frames and chunked responses, the encoders of compact requests, the HTTP
envelope, and three small concurrent structures. `dafny verify dfyconfig.toml` checks all of it.

**How it is built.** Code that changes things step by step is imperative here too: classes with the
source's fields, loops and linked lists, each method proved against a function of the old state.
What the source promises is then proved about those functions, for every input and over every run.
Asynchrony is a choice of steps: each synchronous stretch between two awaits is one atomic step, a
promise is settled at most once, and sockets, timers and the server are the environment that
chooses which step comes next.

**What to read first.**

| Question | Module | Main results |
|---|---|---|
| Does auto-batching change what commands do? | `BatchedExecution`, `BatchDelivery` | in every state of every run, with any number of batches in flight, the commands have had the results and the effect of being carried out one by one in the order of submission |
| May a batch be reordered? | `OrderingPlan`, `BatchSchedules`, `DependencyExecutor`, `PipelineSplitting`, `PipelineEffects` | every schedule that the sparse plan allows, run by any number of slots, cut and bisected in any way, with or without item errors thrown, gives the results and the store of running the batch in order |
| Do batches overtake each other, or wait without need? | `CrossBatchOrdering`, `BatchWaits`, `AutoBatch` | conflicting batches never overlap, and a batch waits for exactly those it conflicts with, over every run |
| What is a caller told, and why? | `ConnectionOutcomes`, `ConnectionEvents`, `ConnectionClosing`, `ResponseDelivery`, `LateResponses` | each outcome that depends on the server has exactly its event in the run, the answer a caller gets is what came for its own request, and a connection closes exactly for its reasons |
| Who holds the credits? | `FlowControlModel`, `FlowControlEffects`, `FlowControl`, `WriteQueueModel`, `WriteQueueEffects`, `WriteQueue`, `NativeConnectionModel`, `ConnectionInvariant`, `ConnectionSteps`, `ConnectionRuns`, `NativeAdapter` | credits are conserved, every request settles once, "not sent" is never said of a frame that the socket has taken, bounded bypass |
| Are responses put together correctly? | `ReceiveStream`, `FrameWire`, `ReceiveBuffer`, `ChunkAssembly`, `ChunkLimits`, `ChunkAssembler` | the frames a server sends are the frames delivered, whatever the segmentation and the interleaving |
| Are encodings exact and readable? | `CompactFields`, `CompactPlan`, `CompactFlow`, `CompactFlowMany`, `CompactFlowSingle`, `CompactRequest`, `CompactReaders`, `CompactRecovery`, `PipelineRecovery`, `Utf8`, `Crc32`, `Crc32Standard`, `Base64`, `Base64Standard`, `HttpEnvelope`, `HttpEnvelopeKeys`, `HttpEnvelopeLimits`, `JsonText` | planned size equals written size, decoders recover everything, the streaming CRC is the bit-by-bit one, the HTTP budget is a lower bound |
| Do the small structures keep their promises? | `Http2SlotModel`, `Http2SlotEffects`, `Http2SlotPool`, `SessionHistory`, `SessionEffects`, `FlowAutoBucket`, `RouteCache`, `PartitionRoutes` | FIFO grants and final outcomes, replay of commits in commit order, a cache that never changes an answer |

**Where the code does less than one might expect.** A map sent over HTTP comes back complete only if
no two of its keys arrive as the same scalar. A bigint in the safe range arrives as the equal number
and a larger one as its decimal text, so a map with the keys 1 and 1n, or with 9007199254740992n and
"9007199254740992", loses an entry. `HttpEnvelopeKeys.RoundTripExactly` gives the exact condition,
`OneLosesAnEntry` and `TwoTo53LosesAnEntry` are inputs that fail it, and `PlainRoundTrip` shows that
values without bigints always meet it.

Two modelling devices recur. A name such as `FlowControlModel.Pump` is a function that says what the
method `FlowControl.NativeFlowControl.Pump` must do to the abstract state; the class proves that it
does. And where JavaScript keeps insertion order (Map, Set, object keys), a sequence does the same.

## Model

| member | source | states |
|---|---|---|
| `OrderingPlan.PlanBatch` | src/auto-batch-ordering.ts:21-62 | A plan exists exactly when every command is classified and some key is accessed; it lists, for each command, exactly the earlier commands it conflicts with on a key that nothing in between writes, ascending and once each, and the strongest access of the batch to each key |
| `OrderingPlan.MergeCommand` | src/auto-batch-ordering.ts:33-37 | A command that lists a key several times accesses it with the strongest of the accesses |
| `OrderingPlan.CollectDependencies` | src/auto-batch-ordering.ts:38-46 | Looking only at the last write and the reads since it finds exactly the direct dependencies of a command |
| `OrderingPlan.RecordAccesses` | src/auto-batch-ordering.ts:47-59 | The two per-key tables keep meaning "last write" and "reads since that write" |
| `OrderingPlan.ConflictsAreCovered` | src/auto-batch-ordering.ts:38-59 | Every read/write and write/write conflict is covered by a chain of listed dependencies, however many writes of the key lie in between |
| `OrderingPlan.ListedDependenciesConflict` | src/auto-batch-ordering.ts:38-46 | A listed dependency is an earlier command and a conflict: nothing is ordered without need |
| `BatchSchedules.SwapLast` | src/auto-batch-ordering.ts:21-62 | Two commands without a conflict can be exchanged: same results, same store, whatever the commands compute |
| `BatchSchedules.MoveToEnd` | src/auto-batch-ordering.ts:21-62 | A command that conflicts with nothing after it may as well run last |
| `BatchSchedules.SortingSuffices` | src/auto-batch-ordering.ts:21-62 | Whichever of the commands took effect: if conflicting ones kept their order, they gave the results and the store of taking effect in their own order |
| `BatchSchedules.ConflictOrderSuffices` | src/auto-batch-ordering.ts:21-62 | Every permutation that keeps the order of conflicting commands gives the results and the store of the batch in order |
| `BatchSchedules.PlannedOrderKeepsConflicts` | src/auto-batch-ordering.ts:38-59 | An order that respects the sparse dependencies keeps the order of all conflicts |
| `BatchSchedules.PlannedSchedulesAreSequential` | src/auto-batch-ordering.ts:21-62 | Every order of effects that respects the plan is indistinguishable from running the batch in order |
| `SlotPool.AsyncSlotPool.Enter` | src/pipeline-execution.ts:261-274 | A task takes a free slot or joins the end of the linked queue; the queue is the FIFO of waiting tasks |
| `SlotPool.AsyncSlotPool.Leave` | src/pipeline-execution.ts:277-286 | A slot goes to the oldest waiter, or becomes free when nobody waits |
| `DependencyExecutor.RunKeepsInv` | src/pipeline-execution.ts:203-228 | In every state of every run: slots in use equal the tasks holding one and stay within the limit, tasks wait only while all slots are used, slots are handed over in FIFO order, and no command takes effect before its dependencies have settled |
| `DependencyExecutor.NeverDeadlocks` | src/pipeline-execution.ts:208-226 | With any dependency lists, an unfinished execution can always take a step |
| `DependencyExecutor.RunsEnd` | src/pipeline-execution.ts:208-226 | A run over n commands has at most 4n steps |
| `DependencyExecutor.StuckMeansFinished` | src/pipeline-execution.ts:226-227 | A run that can take no more steps has settled every task |
| `DependencyExecutor.EffectsAreSequential` | src/pipeline-execution.ts:204-228 | Effects in an order that respects the prerequisites of a plan mean the same as the batch in order |
| `DependencyExecutor.FinishedRunIsSequential` | src/pipeline-execution.ts:204-228 | A planned batch run command by command, with any number of slots and any interleaving, gives the results and the store of running it in order |
| `DependencyExecutor.StartsExactly` | src/pipeline-execution.ts:211-216 | In every state a task that has not begun can start exactly when the earlier positions that it lists have settled; entries outside the batch, its own and later positions never hold it up |
| `DependencyExecutor.RunsAtOnce` | src/pipeline-execution.ts:254-274 | A task that starts runs at once unless as many tasks as allowed are running, and then waits behind all that wait already |
| `PipelineSplitting.SlicedDependencies` | src/pipeline-execution.ts:132-162 | The rows of a slice are those of its commands, re-indexed, without the dependencies that lie outside |
| `PipelineSplitting.Surfaced` | src/pipeline-execution.ts:165-177 | A caller that wants item errors thrown gets the value of the first rejected or erroneous item, and the results otherwise |
| `PipelineSplitting.RunPipeline` | src/native-pipeline-execution.ts:57-104 | The loop over the chunks computes the execution that the theorems below are about |
| `PipelineSplitting.CollectRejections` | src/native-pipeline-execution.ts:165-176 | Rejection flags move to their own positions in the whole pipeline; the flags collected before stay |
| `PipelineSplitting.MergedDelivers` | src/native-pipeline-execution.ts:157-163 | Joining the results of two adjacent ranges keeps every result and flag in its place |
| `PipelineSplitting.ChunkDelivers` | src/native-pipeline-execution.ts:106-155 | As long as every frame is answered, bisection submits all commands of a slice, in order, without gap or overlap, whether or not items fail; then it returns every result and flag at its own index, or throws the value of the first bad item if that is wanted. At the first frame that is lost or malformed it breaks off |
| `PipelineSplitting.PipelineDelivers` | src/native-pipeline-execution.ts:57-155 | The same for a whole pipeline, however it is cut, bisected or sent one by one, and whether or not item errors are thrown: each command is submitted exactly once, and a thrown value is that of the first bad item of the whole pipeline |
| `PipelineSplitting.ReturnsExactly` | src/pipeline-execution.ts:165-177 | Results are returned exactly when every frame was answered and no item error is to be thrown |
| `PipelineSplitting.SliceRestricts` | src/native-pipeline-execution.ts:88-98 | The dependencies of a slice are those of the pipeline restricted to it |
| `PipelineSplitting.PipelineRestricts` | src/native-pipeline-execution.ts:57-155 | Every submission made one by one carries the pipeline's own dependencies restricted to its range, or runs in order |
| `PipelineSplitting.SubmissionsKeepDependencies` | src/native-pipeline-execution.ts:85-104 | Orders that are allowed inside each submission join to an order of the whole pipeline that keeps every dependency |
| `PipelineSplitting.SplitPipelineIsSequential` | src/native-pipeline-execution.ts:57-155 | A planned batch whose frames are all answered has had the effect of running it in order, however it was cut, whatever order was chosen inside a submission, and whether it came back with results or with an item error |
| `PipelineSplitting.PipelineAsAllowed` | src/native-pipeline-execution.ts:57-154 | However a pipeline is cut: no frame holds more commands than the server takes, and commands sent one by one are ordered exactly when the caller asks for order or one of them is a control command that needs it |
| `PipelineEffects.CarriedOutMayRun` | src/pipeline-execution.ts:180-247 | A submission carried out as a frame, in order, by a finished run of the dependency executor over its rows with any number of slots, or in any order when nothing is promised, took effect in an order that it allows |
| `PipelineEffects.PipelineKeepsRows` | src/native-pipeline-execution.ts:57-155 | A pipeline whose frames are all answered takes every command exactly once, after all the commands that its row in the whole pipeline lists; in its own order when that is asked for |
| `PipelineEffects.ExecutedPipelineIsSequential` | src/native-pipeline-execution.ts:57-155 | A planned batch, cut in any way and each part carried out by any interleaving of the executor, gives the results and the store of running the batch in order |
| `PipelineEffects.ControlCommandsStay` | src/pipeline-execution.ts:115-124 | A control command takes effect at its own place: as many commands as stand before it take effect before it, whatever is bisected or sent one by one |
| `CrossBatchOrdering.FlushWaits` | src/auto-batch.ts:275-297 | A new batch waits, perhaps indirectly, for every earlier unsettled batch it must not overtake, although marks have been cleared and replaced |
| `CrossBatchOrdering.SettleKeepsInv` | src/auto-batch.ts:297-315 | Removing the marks of a settled batch, and state objects that have become unused, loses no order between the others |
| `CrossBatchOrdering.RunKeepsInv` | src/auto-batch.ts:257-333 | Over every run of submissions, flushes, sends and completions: the guard of every key covers all unsettled batches that access it |
| `CrossBatchOrdering.ConflictingBatchesNeverOverlap` | src/auto-batch.ts:257-333 | In every reachable state a batch has been sent only if each earlier batch that conflicts with it on some key has settled, and each earlier batch at all if either is unclassified |
| `CrossBatchOrdering.ConflictingCommandsNeverOverlap` | src/auto-batch.ts:257-333 | The same for single commands: none is sent before the batch of an earlier flushed command that it must not overtake has settled |
| `CrossBatchOrdering.CommandsKeepTheirPlaces` | src/auto-batch.ts:270-273 | Batches and queue together always hold the submitted commands in their original order |
| `BatchWaits.FlushWaitsExactly` | src/auto-batch.ts:278-293 | Over every run the next batch waits for exactly these batches in flight: an unclassified one for all; a classified one for the last unclassified one and, on each key, for those it conflicts with there after which no batch has written the key |
| `BatchWaits.WaitsAreConflicts` | src/auto-batch.ts:278-293 | Over every run: whatever a batch waits for is an earlier batch that it conflicts with; two reads never wait for one another |
| `BatchWaits.RunKeepsMarks` | src/auto-batch.ts:297-332 | Over every run: each mark left on a key is that of an unsettled batch which accesses that key in that way, and the tail is an unclassified batch |
| `BatchWaits.NothingLeftBehind` | src/auto-batch.ts:297-315 | When all batches have settled no key state, mark or tail is left |
| `BatchedExecution.PipelineFollowsPlan` | src/auto-batch.ts:341-352 | With the options the auto-batcher passes on, the pipeline of a batch takes every command once, after what the plan lists for it, or in batch order when there is no plan |
| `BatchedExecution.FinishedConflictsAreEarlier` | src/auto-batch.ts:278-297 | When a command of a batch in flight is carried out, every command it conflicts with that is over already was submitted before it, in the same batch or in another |
| `BatchedExecution.EffectsAreAsSubmitted` | src/auto-batch.ts:257-333 | In every state of every run, with any number of batches in flight and any commands given up: those that took effect had the results, and left the store in the state, of carrying them out one by one in the order of submission |
| `BatchedExecution.EveryResultIsSequential` | src/auto-batch.ts:257-333 | As long as no command is given up, every command has returned what it returns when all submitted commands are carried out one by one, and once all have been carried out the store is the one that leaves |
| `AutoBatch.AutoBatchExecutor.Submit` | src/auto-batch.ts:88-96 | A command joins the queue; a full queue is flushed at once |
| `AutoBatch.AutoBatchExecutor.FlushNow` | src/auto-batch.ts:257-333 | The oldest commands become a batch; the objects with their promises, state objects and marks refine the abstract flush |
| `AutoBatch.AutoBatchExecutor.StartUnclassified` | src/auto-batch.ts:278-317 | A batch without a plan waits for all batches in flight and becomes the global tail |
| `AutoBatch.AutoBatchExecutor.StartClassified` | src/auto-batch.ts:280-330 | A planned batch waits for the tail and for the marks on its keys, then leaves its own |
| `AutoBatch.CaptureKeyStates` | src/auto-batch.ts:281-294 | State objects are looked up or created, and exactly the last writes, and for writes the reads, are gathered |
| `AutoBatch.RegisterOperation` | src/auto-batch.ts:319-328 | The operation is marked as a read, or as the last write with the reads cleared |
| `AutoBatch.UnregisterOperation` | src/auto-batch.ts:302-313 | The marks of the operation go; a state object goes when unused, and only if it is still the one of its key |
| `AutoBatch.AutoBatchExecutor.SendBatch` | src/auto-batch.ts:295-297 | A batch is handed to the executor when all it waits for has settled |
| `AutoBatch.AutoBatchExecutor.CompleteBatch` | src/auto-batch.ts:297-315 | The completion handler refines the abstract settlement |
| `BatchDelivery.SendBatch` | src/auto-batch.ts:341-379 | Every promise of a batch is settled once: with the common error, for a wrong length or a hole as such, and otherwise by its own item and mark |
| `BatchDelivery.PromisesGetTheirOwn` | src/auto-batch.ts:341-379 | However the pipeline of the batch is cut and sent, each promise is settled with the answer to its own command in the submission that held it, resolved unless it came back bad; or all with the one error |
| `FlowControlModel.PumpSettles` | src/native-flow-control.ts:138-176 | Pumping ends with no grantable lane, only adds credits, and leaves every waiter queued or granted |
| `FlowControlModel.PumpRespectsLimits` | src/native-flow-control.ts:138-176 | No grant is made at or above the connection limit or the lane limit |
| `FlowControlModel.AcquireNeverOvertakes` | src/native-flow-control.ts:36-44 | A credit is taken directly only if no waiter is queued on that lane, below both limits |
| `FlowControlModel.WaitKeepsValid` | src/native-flow-control.ts:46-88 | Waiting after a failed acquisition makes nothing grantable, so at rest no queued lane is |
| `FlowControlModel.TimeOutKeepsValid` | src/native-flow-control.ts:60-75 | A waiter that times out leaves its lane, and the lane if it was the last, and nothing becomes grantable |
| `FlowControlModel.ReleaseKeepsValid` | src/native-flow-control.ts:90-97 | A returned credit is handed on until nothing is grantable |
| `FlowControlModel.LimitsKeepValid` | src/native-flow-control.ts:99-110 | After a change of limits nothing is left grantable |
| `FlowControlModel.CancelSettlesAll` | src/native-flow-control.ts:112-131 | Cancelling settles every queued waiter as cancelled and no other |
| `FlowControlModel.GrantsOldest` | src/native-flow-control.ts:138-162 | A grant goes to the oldest waiter of its lane |
| `FlowControlModel.GrantMovesLaneUp` | src/native-flow-control.ts:164-176 | A grant serves a grantable lane or moves it closer to the front of the ready order |
| `FlowControlModel.OtherStepsKeepPlace` | src/native-flow-control.ts:36-131 | No other step moves a waiting lane back |
| `FlowControlModel.BoundedBypass` | src/native-flow-control.ts:138-176 | A lane that stays grantable with a waiter at ready position p is granted within p + 1 grants |
| `FlowControlEffects.AcquiresExactly` | src/native-flow-control.ts:36-44 | A credit is had exactly while connection, lane window and lane queue all have room, and is then counted for its lane |
| `FlowControlEffects.WaitsExactly` | src/native-flow-control.ts:46-88 | Each refusal exactly for its reason, in order of precedence; an accepted waiter is the last of its lane and the lane takes its turn behind the others |
| `FlowControlEffects.TimesOutExactly` | src/native-flow-control.ts:57-72 | The timer settles its own waiter alone, unless settled before, and all others wait on in their order |
| `FlowControlEffects.ReleasesExactly` | src/native-flow-control.ts:90-97 | A release gives back one credit of its lane, and every credit handed on is used by one waiter of that lane |
| `FlowControlEffects.LimitsChangeExactly` | src/native-flow-control.ts:99-110 | Each update sets its own limits, leaves those it is not told, and no other operation changes any |
| `FlowControlEffects.OthersKeepLimits` | src/native-flow-control.ts:36-136 | Acquiring, waiting, timing out, releasing, cancelling and closing change no limit |
| `FlowControl.CompactIsSmall` | src/native-flow-control.ts:178-205 | A lane array stays below 4 * max(live, 1024) slots |
| `FlowControl.TakeWaiter` | src/native-flow-control.ts:178-184 | The first waiter that is not settled is taken; the others keep their order |
| `FlowControl.CompactWaiters` | src/native-flow-control.ts:186-205 | Compaction keeps the live waiters, in order, and revives none |
| `FlowControl.NativeFlowControl.TryAcquire` | src/native-flow-control.ts:36-44 | The counters refine the abstract acquisition |
| `FlowControl.NativeFlowControl.Wait` | src/native-flow-control.ts:46-88 | Refused, or queued behind the waiters of the lane |
| `FlowControl.NativeFlowControl.ExpireWaiter` | src/native-flow-control.ts:60-75 | The timer refines the abstract time-out; a settled waiter is left alone |
| `FlowControl.NativeFlowControl.Release` | src/native-flow-control.ts:90-97 | The credit is given back and the pump run, unless closed |
| `FlowControl.NativeFlowControl.UpdateLimits` | src/native-flow-control.ts:99-104 | New limits, then the pump |
| `FlowControl.NativeFlowControl.UpdateLaneQueueLimit` | src/native-flow-control.ts:106-110 | New queue limit, then the pump |
| `FlowControl.NativeFlowControl.CancelQueued` | src/native-flow-control.ts:112-125 | All lane arrays, the ready set and the counter are emptied, their live waiters cancelled |
| `FlowControl.NativeFlowControl.Close` | src/native-flow-control.ts:127-131 | Closing happens once and cancels what waits |
| `FlowControl.NativeFlowControl.Pump` | src/native-flow-control.ts:138-162 | The rotating loop over heap state ends and equals the abstract pump |
| `FlowControl.NativeFlowControl.NextGrantableLane` | src/native-flow-control.ts:164-176 | Rotates the ready lanes to the first with room and takes it out |
| `WriteQueueModel.OperationKeepsValid` | src/native-write-queue.ts:32-109 | In every state frames wait only while the socket is blocked, within the byte limit, and the accepted frames followed by the waiting ones are the frames passed to `write` in call order with some left out |
| `WriteQueueModel.RunsKeepCallOrder` | src/native-write-queue.ts:51-109 | Over every run frames reach the socket as a subsequence of the calls of `write`, each at most once |
| `WriteQueueModel.NotQueuedNeverHanded` | src/native-write-queue.ts:32-109 | A frame that is not queued cannot reach the socket except by a new `write` |
| `WriteQueueModel.CancelledNeverHanded` | src/native-write-queue.ts:32-40 | A cancelled frame never reaches the socket |
| `WriteQueueEffects.WritesExactly` | src/native-write-queue.ts:93-109 | A frame goes to the socket at once unless that is blocked; then it waits last if its bytes still fit, and is refused otherwise |
| `WriteQueueEffects.FlushesExactly` | src/native-write-queue.ts:51-84 | Frames whose request is still pending are written in order until one of the calls asks to stop or none is left; each is taken, or refused as unsent when its call throws |
| `WriteQueueEffects.CancelsExactly` | src/native-write-queue.ts:32-40 | A cancelled frame leaves the queue and the others keep their order |
| `WriteQueue.NativeWriteQueue.Has` | src/native-write-queue.ts:82-84 | True exactly for requests whose frame still waits |
| `WriteQueue.NativeWriteQueue.Cancel` | src/native-write-queue.ts:32-40 | A tombstone is left and the bytes are given back; the other waiting frames stay |
| `WriteQueue.NativeWriteQueue.CompactTombstones` | src/native-write-queue.ts:111-131 | Dropping tombstones keeps the waiting frames and their order |
| `WriteQueue.NativeWriteQueue.Clear` | src/native-write-queue.ts:42-49 | Nothing waits any more |
| `WriteQueue.NativeWriteQueue.WriteFrame` | src/native-write-queue.ts:133-144 | A frame is handed to the socket once; a throwing write rejects its request as unsent |
| `WriteQueue.NativeWriteQueue.Write` | src/native-write-queue.ts:93-109 | Written at once, queued, or rejected when the byte limit would be passed |
| `WriteQueue.NativeWriteQueue.RejectQueued` | src/native-write-queue.ts:86-91 | Every request that still waits is rejected, in order |
| `WriteQueue.NativeWriteQueue.Flush` | src/native-write-queue.ts:51-80 | Waiting frames are written in order until the socket blocks; requests that are gone are skipped |
| `WriteQueue.NativeWriteQueue.FlushSlot` | src/native-write-queue.ts:58-70 | One slot is consumed: a tombstone is skipped, a wanted frame written |
| `ConnectionSteps.StepKeepsInv` | src/native-adapter.ts:238-423 | Every step keeps the invariant that ties credits, the table of pending requests, parked waiters, the write queue and the labels of settled requests together |
| `ConnectionSteps.RequestKeeps` | src/native-adapter.ts:238-254 | ... a new request, whether it is sent, queued or refused |
| `ConnectionSteps.ResumeKeeps` | src/native-adapter.ts:256-275 | ... a request whose waiter has been settled |
| `ConnectionSteps.RequestExpiresKeeps` | src/native-pending-timeout.ts:15-49 | ... a time-out, after which a request that was sent keeps its credit |
| `ConnectionSteps.HandleFrameKeeps` | src/native-response-handler.ts:115-168 | ... a response, matched by identifier, opcode and lane |
| `ConnectionSteps.DiscardLateKeeps` | src/native-response-handler.ts:170-186 | ... a frame of a late response, the last of which frees the credit |
| `ConnectionSteps.FailAllKeeps` | src/native-adapter.ts:357-378 | ... the failure of the connection |
| `ConnectionSteps.BeginDrainingKeeps` | src/native-adapter.ts:391-405 | ... the beginning of draining |
| `ConnectionRuns.CreditsAreConserved` | src/native-adapter.ts:238-423 | In every reachable state the credits in use on a lane are the pending requests holding one there plus the granted waiters not yet resumed, and the control counter is the number of pending requests without a credit, within its limit |
| `ConnectionRuns.EveryRequestIsInOnePlace` | src/native-adapter.ts:303-330 | A pending request is either in the write queue or with the socket, never both, never neither |
| `ConnectionRuns.StepGrows` | src/native-adapter.ts:238-423 | A settled request stays settled the way it was; call and request identifiers are never reassigned |
| `ConnectionRuns.SettledOrOnItsWay` | src/native-adapter.ts:238-423 | After any run every request is either settled or still on its way, and not both |
| `ConnectionRuns.UnsentIsNeverSent` | src/native-adapter.ts:332-378 | Once a caller has been told that its request was not sent, the socket has not taken its frame and never will, in any continuation of the run |
| `ConnectionRuns.PossiblySentWasHanded` | src/native-pending-timeout.ts:22-48 | "Possibly sent" is said only when the socket has taken the frame |
| `ConnectionRuns.ClosedLeavesOnlySettledWaiters` | src/native-adapter.ts:345-378 | After closing nothing is pending or queued, and every parked waiter has been settled |
| `ConnectionRuns.ResumeAfterClose` | src/native-adapter.ts:262-266 | Its next step rejects it as not sent and returns the credit it had been granted |
| `ConnectionRuns.ClosedAndResumedIsEmpty` | src/native-adapter.ts:345-378 | A closed connection whose waiters have resumed holds no credit and has settled every request |
| `ConnectionRuns.DrainingWaitsForSomething` | src/native-adapter.ts:345-355 | A draining connection that is still open has a pending request |
| `ConnectionOutcomes.StepView` | src/native-adapter.ts:224-423 | Every step of every reachable connection settles calls, and enters, marks and clears requests, as one table over the state before it says: who is told what, and what stays correlated |
| `ConnectionOutcomes.DispatchView` | src/native-adapter.ts:277-330 | A request that may be sent is given the next identifier and entered, or settled at once as not encoded, unsent, refused by the write queue or by the control limit |
| `ConnectionOutcomes.HandleFrameView` | src/native-response-handler.ts:139-167 | What a response does, told of its request: ignored, failing the connection, counted as late, kept waiting for more, resolving or rejecting that call alone |
| `ConnectionOutcomes.DrainedView` | src/native-adapter.ts:391-405 | Draining rejects exactly the queued requests as unsent and then the ones without a time limit as possibly sent |
| `ConnectionEvents.OutcomesHaveEvents` | src/native-response-handler.ts:139-167 | Over every run of a new connection: a call is resolved if and only if a whole, successful response for it arrived in time, with its opcode and lane and within the limit; rejected with the server's error if and only if such a response was an error; told of a time-out after sending if and only if its timer fired with its frame at the socket |
| `ConnectionClosing.ClosesExactly` | src/native-adapter.ts:345-389 | After every step a connection is closed exactly if it was, or the step made it fail, or it is draining with nothing left to wait for; and its limits are those it was last told, by a confirmed window update or an event |
| `ResponseDelivery.AnswersAreTheirOwn` | src/native-response-handler.ts:119-167 | Over every run of a connection with its chunk assembler and any decoder, with responses in parts, interleaved, late or wrong: a call is settled by the server exactly when it has an answer, whose body is all that came for its own request while that was correlated, in order, and nothing else; and it is resolved or rejected as that answer decodes |
| `ResponseDelivery.ReceiveDelivers` | src/native-response-handler.ts:139-167 | Whatever frame arrives, what is held of each response is what came for it, and parts are held only of requests that are still waited for |
| `LateResponses.LateResponsesAreCounted` | src/native-pending-timeout.ts:38-47 | In every state of every run, the bytes and frames counted of a late response are those that came for it, before the time-out and after it |
| `ResponseDelivery.TableEvolves` | src/native-adapter.ts:224-423 | No step changes a request into another: what is correlated afterwards was before, or is the one new request |
| `NativeAdapter.NativeAdapter.Request` | src/native-adapter.ts:238-254 | The objects together take the abstract step of a new request |
| `NativeAdapter.NativeAdapter.WaitForCredit` | src/native-adapter.ts:256-262 | A refused waiter settles the request; another is parked |
| `NativeAdapter.NativeAdapter.Resume` | src/native-adapter.ts:262-275 | Parked requests continue, or return their credit |
| `NativeAdapter.NativeAdapter.SendAcquiredRequest` | src/native-adapter.ts:277-330 | Identifier, table entry, counter and write |
| `NativeAdapter.NativeAdapter.TakePending` | src/native-adapter.ts:412-423 | A request leaves the table, its frame the queue, and its credit or control slot is returned |
| `NativeAdapter.NativeAdapter.TimeoutPending` | src/native-pending-timeout.ts:15-49 | An unsent request is taken; a sent one is rejected and stays correlated |
| `NativeAdapter.NativeAdapter.HandleFrame` | src/native-response-handler.ts:136-168 | A response settles its request or fails the connection |
| `NativeAdapter.NativeAdapter.DiscardTimedOutFrame` | src/native-response-handler.ts:170-186 | Late frames are counted against the limits and dropped |
| `NativeAdapter.NativeAdapter.FailAll` | src/native-adapter.ts:357-378 | The table is walked in order: queued requests are rejected as unsent, the others as possibly sent, all credits returned |
| `NativeAdapter.NativeAdapter.BeginDraining` | src/native-adapter.ts:391-405 | Waiters and queued frames are rejected, then the requests without a time limit |
| `NativeAdapter.NativeAdapter.FinishDrainIfIdle` | src/native-adapter.ts:345-355 | A draining connection closes when its table is empty |
| `NativeAdapter.NativeAdapter.SocketDrains` | src/native-write-queue.ts:51-80 | The queue is flushed and what it rejects is taken |
| `NativeAdapter.NativeAdapter.ApplyFlowControlLimits` | src/native-adapter.ts:425-429 | New limits are passed on to the flow control |
| `ReceiveStream.ParseNextExtends` | src/protocol.ts:75-107 | More bytes change neither a complete frame nor an error |
| `ReceiveStream.RunDelivers` | src/native-receive-buffer.ts:50-92 | What has been delivered and what is still to come are the frames of everything received |
| `ReceiveStream.DeliveredIsPrefixOfStream` | src/native-receive-buffer.ts:50-92 | For every segmentation and every interleaving of arrivals and requests, the frames delivered are a prefix of parsing the concatenation; when none is delivered, no complete frame remains |
| `FrameWire.WireIsRead` | src/protocol.ts:86-126 | A frame as a server writes it (magic, version, flags, lane, opcode, request, length, body) is read as that frame whatever follows, or refused if it is over the limit |
| `FrameWire.WiresAreRead` | src/protocol.ts:86-126 | The frames of the bytes of a list of frames are that list, with nothing left over |
| `FrameWire.SentFramesArrive` | src/native-receive-buffer.ts:71-134 | Whatever the segmentation and the requests for a frame in between, what is delivered are the first frames of those sent, and all of them once everything has arrived |
| `FrameWire.OnlyWiresAreRead` | src/protocol.ts:86-126 | A stream is read as a frame only if it starts with that frame as it is on the wire, up to the highest bit of the bytes of the magic |
| `ReceiveBuffer.NativeFrameAssembly.Append` | src/native-receive-buffer.ts:17-40 | Pages are filled in order; what does not belong to the frame is left over |
| `ReceiveBuffer.NativeFrameAssembly.Finish` | src/native-receive-buffer.ts:42-47 | The pages joined are the bytes received |
| `ReceiveBuffer.NativeReceiveBuffer.Append` | src/native-receive-buffer.ts:57-65 | The content grows by the chunk, whether a frame is under assembly or not |
| `ReceiveBuffer.NativeReceiveBuffer.NextFrame` | src/native-receive-buffer.ts:75-92 | Exactly the first frame of the content, an error of its header, or nothing when it is incomplete |
| `ReceiveBuffer.NativeReceiveBuffer.Peek` | src/native-receive-buffer.ts:118-138 | The next bytes, across chunks, without taking them |
| `ReceiveBuffer.NativeReceiveBuffer.Read` | src/native-receive-buffer.ts:140-157 | The next bytes, across chunks, taken from the content |
| `ReceiveBuffer.NativeReceiveBuffer.DrainInto` | src/native-receive-buffer.ts:102-116 | All buffered bytes move into the assembly |
| `ReceiveBuffer.NativeReceiveBuffer.Compact` | src/native-receive-buffer.ts:159-168 | Dropping consumed chunks keeps the content |
| `ReceiveBuffer.DecodeFrame` | src/native-receive-buffer.ts:94-100 | Decoding accepts exactly one whole frame |
| `ChunkAssembly.EachRequestGetsItsOwn` | src/native-chunk-assembler.ts:22-56 | However responses interleave, each request receives the in-order concatenation of the bodies of its own frames, complete ones only |
| `ChunkAssembly.AssembleKeepsBounded` | src/native-chunk-assembler.ts:22-56 | Totals equal the sums over open keys and stay within the limits |
| `ChunkAssembly.GatherCounts` | src/native-chunk-assembler.ts:35-48 | The running totals after one more body |
| `ChunkAssembly.ReleaseCounts` | src/native-chunk-assembler.ts:98-107 | The running totals after a key has been released |
| `ChunkAssembly.DiscardKeepsBounded` | src/native-chunk-assembler.ts:58-69 | Discarding the keys of a request keeps the totals exact |
| `ChunkLimits.RefusesExactly` | src/native-chunk-assembler.ts:25-30 | A frame that begins or continues a response in parts is refused exactly when the parts held back would be too many bytes or frames, or its response too large; five tests of the source come down to these three |
| `ChunkLimits.BelongTogether` | src/native-chunk-assembler.ts:23 | Frames belong together exactly when they agree on request, opcode and lane |
| `ChunkLimits.MoreIsABit` | src/native-chunk-assembler.ts:25 | More is to come exactly when the bit 0x20 of the flags is set |
| `ChunkLimits.HeldFramesArrived` | src/native-chunk-assembler.ts:22-62 | The frames held back for a response are those that have arrived since it began |
| `ChunkAssembler.NativeChunkAssembler.Assemble` | src/native-chunk-assembler.ts:22-56 | The four maps and two totals refine the abstract assembly, with its errors |
| `ChunkAssembler.NativeChunkAssembler.DiscardRequest` | src/native-chunk-assembler.ts:58-69 | All keys of the request go, and their bytes and frames are reported |
| `ChunkAssembler.NativeChunkAssembler.Release` | src/native-chunk-assembler.ts:98-107 | One key goes from all maps and from the totals |
| `ChunkAssembler.NativeChunkAssembler.Clear` | src/native-chunk-assembler.ts:71-78 | Nothing is held |
| `ChunkAssembler.NativeChunkAssembler.UpdateMaxResponseBytes` | src/native-chunk-assembler.ts:18-20 | Only the limit changes |
| `Utf8.PointRoundTrip` | src/crc32.ts:27-51 | The encoding of a scalar value is read back as that value, whatever follows (section 3 of RFC 3629) |
| `Utf8.EncodeRoundTrip` | src/crc32.ts:21-55 | Decoding the encoding of any text gives its characters, with lone surrogates as U+FFFD |
| `Crc32.StepXor` | src/crc32.ts:6-8 | One step of the bit-by-bit register is linear over exclusive or |
| `Crc32.BuildTable` | src/crc32.ts:3-10 | Each table entry is eight bit steps on its index |
| `Crc32.LookupFeedsByte` | src/crc32.ts:57-59 | One look-up does what feeding the eight bits of a byte one by one does (section 8 of RFC 1952) |
| `Crc32.UpdateCrc32` | src/crc32.ts:57-59 | One update feeds one byte to the bit-by-bit CRC |
| `Crc32.Crc32` | src/crc32.ts:12-18 | The table-driven CRC of a buffer is the bit-by-bit CRC-32 of its bytes |
| `Crc32.Crc32Utf8` | src/crc32.ts:21-55 | For every text and range, the streaming CRC is the CRC-32 of the UTF-8 encoding of that range, where surrogates that are lone or cut off by the range count as U+FFFD |
| `Crc32Standard.PolynomialIsStandard` | src/crc32.ts:3-10 | The generator is that of IEEE 802.3, reflected, exponent by exponent |
| `Crc32Standard.ResidueIsStandard` | src/crc32.ts:12-18 | Every message followed by its checksum leaves the residue 0xdebb20e3, whatever the message |
| `Http2SlotModel.RunKeepsValid` | src/http2-slot-pool.ts:29-124 | In every reachable state: slots in use equal granted requests not yet released, no waiter is left while a slot is free, nobody waits after retirement |
| `Http2SlotModel.OutcomesAreFinal` | src/http2-slot-pool.ts:29-124 | No step changes an outcome, grants anything after retirement, or grants at or above the limit |
| `Http2SlotModel.RunsKeepOutcomes` | src/http2-slot-pool.ts:29-124 | Whatever follows, each request stays settled as it was; after retirement nothing is ever granted and slots only come back |
| `Http2SlotModel.CallbacksFireOncePerRegistration` | src/http2-slot-pool.ts:74-123 | Over any run an idle callback is called at most as often as it was registered |
| `Http2SlotModel.DrainServesOldest` | src/http2-slot-pool.ts:79-90 | Slots go to the oldest waiters, and never at or above the limit (section 5.1.2 of RFC 9113) |
| `Http2SlotModel.RetireKeepsValid` | src/http2-slot-pool.ts:61-72 | Retirement rejects every waiter and grants nothing |
| `Http2SlotModel.IdleFiresWhenLastSlotGoes` | src/http2-slot-pool.ts:110-124 | The idle callback fires when the last slot of a retired pool is released, and is forgotten with that |
| `Http2SlotEffects.AcquiresExactly` | src/http2-slot-pool.ts:29-53 | Aborted, retired, granted or last in the queue, each exactly in its case, and nothing else changes |
| `Http2SlotEffects.AbortsExactly` | src/http2-slot-pool.ts:38-43 | An aborted waiter leaves its place and the others keep theirs |
| `Http2SlotEffects.AbortIgnoresSettled` | src/http2-slot-pool.ts:38-39 | A request that has been settled ignores its signal |
| `Http2SlotEffects.LimitsExactly` | src/http2-slot-pool.ts:55-59 | A new limit is in force from then on and serves as many of the oldest waiters as it leaves slots free; a retired session takes none |
| `Http2SlotEffects.ReleasesExactly` | src/http2-slot-pool.ts:110-124 | A released slot goes to the oldest waiters that there is room for; releasing it again does nothing |
| `Http2SlotEffects.OneReleaseServesOne` | src/http2-slot-pool.ts:110-124 | While the limit is not exceeded a release serves exactly one waiter, if any waits |
| `Http2SlotEffects.RetiresExactly` | src/http2-slot-pool.ts:61-72 | Retiring rejects exactly the waiters and leaves the slots in use alone |
| `Http2SlotEffects.IdleExactly` | src/http2-slot-pool.ts:74-77 | The idle callback is called at once while no slot is in use, and otherwise replaces the one kept |
| `Http2SlotPool.HTTP2SlotPool.Acquire` | src/http2-slot-pool.ts:29-53 | A slot, a place in the linked queue, or an error |
| `Http2SlotPool.HTTP2SlotPool.Abort` | src/http2-slot-pool.ts:37-52 | The waiter leaves the list wherever it is; a settled one is left alone |
| `Http2SlotPool.HTTP2SlotPool.Drain` | src/http2-slot-pool.ts:79-90 | The linked queue is served from its head |
| `Http2SlotPool.HTTP2SlotPool.UpdateLimit` | src/http2-slot-pool.ts:55-59 | The new limit is used at once |
| `Http2SlotPool.HTTP2SlotPool.Retire` | src/http2-slot-pool.ts:61-72 | The whole list is rejected, oldest first |
| `Http2SlotPool.HTTP2SlotPool.Release` | src/http2-slot-pool.ts:110-124 | The slot is returned once; a second call does nothing |
| `Http2SlotPool.HTTP2SlotPool.WhenIdle` | src/http2-slot-pool.ts:74-77 | Called at once when idle, kept otherwise |
| `Http2SlotPool.HTTP2SlotPool.EnqueueWaiter` | src/http2-slot-pool.ts:92-97 | The waiter becomes the tail of the list |
| `Http2SlotPool.HTTP2SlotPool.RemoveWaiter` | src/http2-slot-pool.ts:99-108 | The list without the waiter, still linked in both directions |
| `SessionHistory.StoreIsReplayOfCommits` | src/openai-agents.ts:212-224 | However sessions interleave, the stored state is the committed operations applied one after another in commit order, and a call that returned committed exactly once |
| `SessionHistory.PopReturnsWhatItRemoved` | src/openai-agents.ts:130-137 | Despite retries `popItem` returns the last item of the state its commit replaced, and that commit removed exactly this occurrence |
| `SessionHistory.TransactionsApplyOnce` | src/openai-agents.ts:174-210 | Between clears an operation identifier changes the items at most once |
| `SessionHistory.DifferentTransactionIsRefused` | src/openai-agents.ts:183-191 | An identifier used again for another transaction is refused, as long as the receipts differ |
| `SessionHistory.StepKeepsInv` | src/openai-agents.ts:212-224 | Every read, commit attempt or loss of the lease keeps the log of commits a chain that ends in the store |
| `SessionHistory.ApplyHistoryMutations` | src/openai-agents.ts:149-171 | The nested loops compute the rewrite |
| `SessionHistory.RewriteReplacesFirst` | src/openai-agents.ts:155-168 | One replacement where the first matching call was, the other matches dropped, everything else kept in place |
| `SessionEffects.EveryCommitDid` | src/openai-agents.ts:116-210 | Over every interleaving: each commit in the log did what its operation is for, to the state the commit before it left: appended, replaced, emptied with its receipts, popped, rewrote, or exchanged exactly the expected ending and recorded the receipt |
| `SessionEffects.AppliesExactly` | src/openai-agents.ts:182-209 | An operation fails exactly as a reused identifier of another transaction, or as a new transaction whose expected ending the items do not have |
| `SessionEffects.RetriesEightTimes` | src/openai-agents.ts:212-224 | A call that finds the session changed tries again, eight times in all, and leaves the store alone each time |
| `SessionEffects.OthersItemByItem` | src/openai-agents.ts:155-168 | Of the items after the first match exactly the calls with that identifier are dropped, item by item |
| `Base64.DecodeInvertsEncode` | src/http-envelope.ts:127-134 | The strict decoder gives some bytes exactly for the text that the encoder writes for them (section 4 of RFC 4648) |
| `Base64.EncodeIsInjective` | src/flow-partition-route-cache.ts:30 | Different bytes have different cache keys |
| `Base64Standard.AlphabetIsStandard` | src/http-envelope.ts:66-69 | The letters of the 64 values are those of RFC 4648 |
| `Base64Standard.TestVectors` | src/http-envelope.ts:66-69 | The test vectors of section 10 of RFC 4648, with each kind of padding |
| `Base64Standard.GroupsFollow` | src/http-envelope.ts:66-69 | Groups of three bytes are encoded one after the other |
| `HttpEnvelopeKeys.RoundTripExactly` | src/http-envelope.ts:53-125 | An encoded value decodes to what was meant, with records as maps, if and only if no map in it has two keys that arrive as the same scalar |
| `HttpEnvelopeKeys.FirstIsLost` | src/http-envelope.ts:116-122 | When two keys of a map arrive as the same scalar, decoding gives the second entry alone |
| `HttpEnvelopeKeys.BigIntegerMeetsItsText` | src/http-envelope.ts:76-95 | One failing family: a map with a bigint beyond the safe range and its decimal text as keys comes back without the first entry |
| `HttpEnvelopeKeys.NumberMeetsItsBigint` | src/http-envelope.ts:71-95 | The other: a map with a number and the equal bigint as keys comes back without the first entry |
| `HttpEnvelopeKeys.TwoTo53LosesAnEntry` | src/http-envelope.ts:76-95 | A concrete input of the first family, with 2^53, that is encoded within 63 bytes and loses its first entry |
| `HttpEnvelopeKeys.OneLosesAnEntry` | src/http-envelope.ts:71-95 | A concrete input of the second, with 1 and the bigint 1, within 29 bytes |
| `HttpEnvelopeKeys.PlainRoundTrip` | src/http-envelope.ts:53-125 | Values without bigints always make the journey, even when their keys equal the markers |
| `HttpEnvelopeKeys.PlainArrivesAsItWas` | src/http-envelope.ts:53-125 | Without bigints and records a value arrives unchanged |
| `HttpEnvelope.RoundTrip` | src/http-envelope.ts:53-125 | Decoding inverts encoding at every depth and budget, by induction over the value |
| `HttpEnvelope.QuotedIsNoShorter` | src/http-envelope.ts:59-61 | No JSON string is shorter than its UTF-8 bytes in quotes |
| `HttpEnvelope.BudgetIsLowerBound` | src/http-envelope.ts:53-107 | What encoding takes from the budget is at most the length of the JSON text |
| `HttpEnvelope.RejectionIsJustified` | src/http-envelope.ts:149-154 | A value is rejected for its size only if its JSON text is longer than the budget |
| `HttpEnvelope.RequestRejectionIsJustified` | src/http-envelope.ts:19-28 | A request is rejected for its size only if its body is longer than allowed |
| `HttpEnvelope.EncodeBudget.Consume` | src/http-envelope.ts:149-154 | The budget shrinks by the amount, or stays and the amount is refused |
| `HttpEnvelope.EncodeBudget.EncodeValue` | src/http-envelope.ts:53-107 | The recursive encoder with its shared, shrinking budget computes the value and the rest of the budget of the specification |
| `HttpEnvelope.EncodeBudget.EncodeDense` | src/http-envelope.ts:156-167 | The items in order, stopping at the first error |
| `HttpEnvelope.EncodeBudget.EncodeMap` | src/http-envelope.ts:87-97 | Key and value of each entry in order, stopping at the first error |
| `HttpEnvelope.EncodeBudget.EncodeRecord` | src/http-envelope.ts:98-105 | The same for the fields of a record |
| `HttpEnvelopeLimits.EncodesExactly` | src/http-envelope.ts:53-107 | A value is encoded exactly when nothing in it is deeper than 64 and its cost, told of the value alone, is within the budget, which is lowered by exactly that |
| `HttpEnvelopeLimits.RequestEncodesExactly` | src/http-envelope.ts:19-28 | A request is encoded exactly when no command is too deep and all of them together cost no more than the limit |
| `HttpEnvelopeLimits.RequestHoldsCommands` | src/http-envelope.ts:19-28 | The body names its encoding and holds the commands in order |
| `HttpEnvelopeLimits.BytesMarkerIsSpelled` | src/http-envelope.ts:5 | The marker of bytes, letter by letter |
| `HttpEnvelopeLimits.MapMarkerIsSpelled` | src/http-envelope.ts:6 | The marker of maps, letter by letter |
| `HttpEnvelopeLimits.DecimalIsRead` | src/http-envelope.ts:75-81 | A bigint beyond the safe range travels as its decimal text, without leading zeros |
| `HttpEnvelopeLimits.DecodesExactly` | src/http-envelope.ts:109-134 | Any JSON value is decoded exactly when its markers are well-formed and nothing in it is deeper than 64 |
| `HttpEnvelopeLimits.ObjectsAreRecords` | src/http-envelope.ts:136-147 | An object without a marker is a record with its members, in order |
| `JsonText.LengthIsOfText` | src/http-envelope.ts:24-27 | The length that the budget is compared with is that of the JSON text, written out byte by byte with its escapes |
| `JsonText.RefusedRequestsAreTooLong` | src/http-envelope.ts:149-154 | A request refused for its size would, with more room, be sent as more bytes than allowed |
| `FlowAutoBucket.FlowAutoBucketOfBytes` | src/flow-partition-route-cache.ts:87-100 | The digit loop accepts exactly the buckets 0 to 255 without leading zero |
| `FlowAutoBucket.TextAndBytesAgree` | src/flow-partition-route-cache.ts:80-100 | The pattern on a text and the digit loop on its UTF-8 bytes give the same bucket, or both none |
| `PartitionRoutes.BucketNames` | src/flow-partition-route-cache.ts:80-101 | The names of automatic partitions are exactly the prefix followed by a number below 256 in decimal without leading zeros, and the bucket is that number |
| `RouteCache.TextRoutesLikeItsBytes` | src/flow-partition-route-cache.ts:24-51 | A text and its UTF-8 buffer have the same route |
| `RouteCache.FlowPartitionRouteCache.RoutingKey` | src/flow-partition-route-cache.ts:24-51 | Whatever is cached, the route is the uncached one; the cache changes as least-recently-used order prescribes |
| `RouteCache.FlowPartitionRouteCache.EvictOldest` | src/flow-partition-route-cache.ts:111-116 | The oldest entry and its bytes go |
| `RouteCache.FlowPartitionRouteCache.MakeRoom` | src/flow-partition-route-cache.ts:41-46 | Oldest entries go until the new one fits |
| `RouteCache.FlowPartitionRouteCache.Reset` | src/flow-partition-route-cache.ts:73-78 | Empty cache, zero counters |
| `RouteCache.EvictsOnlyOldest` | src/flow-partition-route-cache.ts:41-46 | Only a shortest sufficient run of the oldest entries is evicted |
| `RouteCache.EvictKeepsValid` | src/flow-partition-route-cache.ts:41-50 | At most 1,024 entries and 1 MiB, the byte count being the sum of the entries |
| `RouteCache.CacheHoldsMostRecent` | src/flow-partition-route-cache.ts:31-50 | Using entries one after another leaves the most recently used keys, oldest first |
| `RouteCache.FlowPartitionRouteCache.HoldsMostRecentlyAsked` | src/flow-partition-route-cache.ts:24-51 | Whatever the cache has been asked since it was empty, it holds the keys asked for most recently, oldest first |
| `PartitionRoutes.RoutesOf` | src/flow-partition-route-cache.ts:21-26 | Every text and buffer has a route: that of its bucket if its bytes name one, and otherwise the digest of its bytes in braces |
| `PartitionRoutes.RoutesDiffer` | src/flow-partition-route-cache.ts:21-27 | Two partitions share a route exactly when they name the same bucket, or neither names one and their bytes have the same digest |
| `PartitionRoutes.CacheIsBounded` | src/flow-partition-route-cache.ts:38-50 | At most 1024 routes and a mebibyte, at 96 bytes a route and two a character |
| `PartitionRoutes.CachedPartitions` | src/flow-partition-route-cache.ts:27 | What is cached: partitions of up to 4096 bytes that name no bucket |
| `CompactFields.WriteUInt` | src/protocol-core.ts:205-222 | An unsigned integer is written big-endian at its offset; nothing before it changes |
| `CompactFields.WriteBinary` | src/protocol-core.ts:205-222 | A length of four bytes, then the bytes |
| `CompactFields.Write` | src/protocol-core.ts:205-243 | One field is written, the offset moves by its planned size, nothing before it changes |
| `CompactFields.SizeIsLength` | src/protocol-core.ts:164-193 | The planned size of a list of fields is the number of bytes written for it |
| `CompactFields.FieldRoundTrip` | src/protocol-core.ts:205-243 | Whatever follows, each field is read back as it was; the sentinel of an absent value never clashes with a length |
| `CompactFields.RequestRoundTrip` | src/protocol-core.ts:205-243 | A request of head, count and groups is read back completely |
| `CompactPlan.WriteAll` | src/protocol-core.ts:205-243 | Fields are written one after another and end exactly where planned |
| `CompactPlan.WriteRequest` | src/protocol-flow-compact.ts:64-82 | A buffer of exactly the planned size is filled completely: the last write ends at its end |
| `CompactPlan.EncodeRequest` | src/protocol-flow-compact-transition.ts:43-129 | The plan-then-write skeleton: an early refusal by the lower bound is always right, and a request is encoded exactly when its arguments are fine and it fits |
| `CompactRecovery.CompletionVerdicts` | src/protocol-flow-compact.ts:183-208 | Which bad item is an error and which has no compact form, early and late |
| `CompactRecovery.CancellationVerdicts` | src/protocol-flow-compact.ts:350-381 | The same for cancellations: a negative fencing value has no compact form, a missing one is an error |
| `CompactRecovery.MoveVerdicts` | src/protocol-flow-compact-transition.ts:43-92 | The same for transitions |
| `CompactRecovery.CreationVerdicts` | src/protocol-flow-compact.ts:42-57 | The same for creations |
| `CompactRecovery.KeyVerdicts` | src/protocol-compact-request.ts:53-66 | The same for lists of keys |
| `CompactFlowMany.CreateMany` | src/protocol-flow-compact.ts:12-84 | Encoded exactly when options and items allow it and it fits; the payload is exactly the planned fields |
| `CompactFlowMany.CreatePlanExact` | src/protocol-flow-compact.ts:12-84 | The planned sizes are those of the fields written, and the lower bound is one |
| `CompactRecovery.CreateIsRecovered` | src/protocol-flow-compact.ts:12-82 | A creation is accepted exactly when its options are supported, its times are safe integers and every argument can be written; then a decoder that knows only the format recovers type, state, partition, times, mode and, for each item, the very arguments it was given, and tells the three forms apart |
| `CompactFlowMany.CompleteMany` | src/protocol-flow-compact.ts:159-229 | Encoded exactly when options and items allow it and it fits; the payload is exactly the planned fields |
| `CompactFlowMany.CompletePlanExact` | src/protocol-flow-compact.ts:159-229 | The planned sizes are those of the fields written, and the lower bound is one |
| `CompactRecovery.CompleteIsRecovered` | src/protocol-flow-compact.ts:159-227 | Accepted exactly when the arguments themselves allow it; then a decoder recovers partition, time, mode, return mode and, for each item, the arguments given as identifier, partition, lease and fencing value |
| `CompactFlowMany.RetryMany` | src/protocol-flow-compact.ts:231-303 | Encoded exactly when options and items allow it and it fits; the payload is exactly the planned fields |
| `CompactFlowMany.RetryPlanExact` | src/protocol-flow-compact.ts:231-303 | The planned sizes are those of the fields written, and the lower bound is one |
| `CompactRecovery.RetryIsRecovered` | src/protocol-flow-compact.ts:231-301 | The same for a retry, with both of its times |
| `CompactFlowMany.CancelMany` | src/protocol-flow-compact.ts:305-414 | Encoded exactly when options and items allow it and it fits; the payload is exactly the planned fields |
| `CompactFlowMany.CancelPlanExact` | src/protocol-flow-compact.ts:305-414 | The planned sizes are those of the fields written, and the lower bound is one |
| `CompactRecovery.CancelIsRecovered` | src/protocol-flow-compact.ts:305-407 | The same for a cancellation: identifier, partition and fencing value, which must not be negative |
| `CompactFlowSingle.ClaimDue` | src/protocol-flow-compact.ts:86-157 | Encoded exactly when the options allow it, every argument can be written and it fits |
| `CompactRecovery.ClaimIsRecovered` | src/protocol-flow-compact.ts:86-157 | Accepted exactly when every option and argument allows it; then a decoder recovers every option, absent ones as absent, and tells apart no partition, one and several |
| `CompactFlow.TransitionMany` | src/protocol-flow-compact-transition.ts:7-135 | Encoded exactly when options and items allow it and it fits; the payload is exactly the planned fields |
| `CompactFlow.TransitionPlanExact` | src/protocol-flow-compact-transition.ts:43-92 | The planned sizes are those of the fields written, and the lower bound is one |
| `CompactRecovery.TransitionIsRecovered` | src/protocol-flow-compact-transition.ts:7-129 | The same for a transition: both states, partition, times, modes and, for each item, identifier, partition, fencing value and lease, where the lease "-" is none |
| `CompactFlowSingle.ValueMGet` | src/protocol-flow-compact-single.ts:6-46 | Encoded exactly when every reference can be written and it fits |
| `CompactRecovery.ValueMGetIsRecovered` | src/protocol-flow-compact-single.ts:6-44 | Accepted exactly when the limit is absent or a time and every reference can be written; then both are recovered |
| `CompactRequest.Mset` | src/protocol-compact-request.ts:15-43 | Pairs of keys and values; an odd number of arguments is an error |
| `CompactRecovery.MsetIsRecovered` | src/protocol-compact-request.ts:15-42 | Every key arrives with the value that follows it |
| `CompactRequest.KeyPipeline` | src/protocol-compact-request.ts:45-74 | Encoded exactly when every key can be written and it fits |
| `CompactRecovery.KeyPipelineIsRecovered` | src/protocol-compact-request.ts:45-73 | Accepted exactly when every key can be written; then mode and keys are recovered |
| `CompactRequest.UniformPipeline` | src/protocol-compact-request.ts:102-160 | A pipeline of PUBLISH, SET or GET commands: encoded exactly when all have that name and number of arguments, every argument can be written and it fits |
| `PipelineRecovery.CompactIsGiven` | src/protocol-compact-request.ts:76-210 | The encoder that the first command selects takes a pipeline exactly when all its commands are of that kind and form, and XADD and PUBLISH are agreed |
| `CompactRequest.XAddPipeline` | src/protocol-compact-request.ts:162-218 | Encoded exactly when every command is an eligible XADD and it fits, checked while the lower bound adds up |
| `CompactRequest.XAddPlanExact` | src/protocol-compact-request.ts:189-203 | The planned sizes are those of the fields written |
| `PipelineRecovery.PipelineIsRecovered` | src/protocol-compact-request.ts:76-304 | A server that knows only the format gets all commands of a compact pipeline in order, each with its name and its arguments; a stream entry with key, `*`, and all names and values |
| `CompactRequest.Pipeline` | src/protocol-compact-request.ts:76-100 | Encoded exactly when the encoder that the first command selects takes every command, with the consent that XADD and PUBLISH need, and the result fits; an empty pipeline exactly when its six bytes fit |

## Left out

- Request identifiers are unbounded here; the source wraps them at 2^64, so a connection that lives for 2^64 requests is outside the model.
- Records that the source keeps inside Maps and changes in place (a lane's queue, a queued write, a pending request, the waiters, the key states of the auto-batcher) are values in sequences and maps of the class here; aliasing between such records is not captured. The linked lists of the two slot pools are heap objects.
- The order of the pending table is that of ascending request identifiers, which is its insertion order.
- Rejections are returned as lists and performed by the caller; the source calls back in the middle of the write queue's loops. User callbacks, promises and the microtask queue are not modelled beyond "settles once".
- Sockets, TLS, DNS, heartbeats, timers and their durations are environment steps: accept, block, throw, fail, drain, expire. Lane assignment is a parameter of each request.
- NativeConnectionModel.FailAll: a request whose frame the socket has taken is settled as possibly sent; the source passes on the cause instead when it does not itself close the connection.
- NativeConnectionModel.HandleFrame: the assembler and the decoder are a parameter of the step (overflow, partial, complete); `ResponseDelivery` puts the assembler in its place and leaves the decoder an arbitrary function of the whole response. The response limit of a connection is constant.
- Management frames (events, GOAWAY) are reduced to their effect: limits change, draining begins.
- DependencyExecutor: the ordered mode and the mode without dependency lists (a shared index and a set of workers) are not stepped through; `PipelineEffects.CarriedOut` takes the first as the order of the batch and the second as any order.
- PipelineEffects.CarriedOut: the server is taken to carry out the commands of one frame in their order.
- BatchedExecution.EffectsAreAsSubmitted: a command takes effect, if at all, before its batch settles. What the server may still do with a frame after its answer was lost is outside the model, as the client cannot know it.
- PipelineSplitting.RunPipeline: decoding of pipeline responses is part of the environment, which says what each attempt to send a slice returned.
- Command parsing, classification and the key lists of commands: the planner takes the accesses of each command as given.
- AutoBatch: helpers and blocking commands that wait for pending batches, closing, and the delay before a flush; a flush may happen at any time.
- ChunkAssembler: the text key `request:opcode:lane` is the triple of its parts.
- ReceiveBuffer: clearing the buffer, and the decoding of a frame's body.
- CompactPlan.EncodeRequest: all encoders share this plan-then-write skeleton; the source spells it out in each. Of errors of one kind the source's message names the argument; here only the kind is kept.
- Compact arguments are given with their bytes and, where an integer is required, its value; conversion of JavaScript values (numbers, symbols, `undefined`) to bytes is not modelled. Option lists arrive parsed. Item lists whose length is not a multiple of their width are excluded where the caller checks it.
- CompactRequest: lists have fewer than 2^32 elements, as JavaScript arrays do.
- Decoding of compact responses, and the generic value encoding.
- SHA-256 is an arbitrary function, in the route cache and in the receipts of the session history; `DifferentTransactionIsRefused` says what it needs of it.
- SessionHistory: the lock around a mutation and its lease appear only as steps that fail; outcomes lost in the network, state corruption checks and snapshot copies are left out. The store compares whole values, so a value that returns to an earlier one may be replaced, which is sound.
- HttpEnvelope: JSON text is written but not parsed; decoding starts from the tree. Left out are numbers that are not safe integers (fractions, larger magnitudes, negative zero), sparse arrays, `undefined` and unsupported values.
- Crc32: buffers are byte sequences and texts are sequences of 16-bit code units.
- RouteCache: the hit and miss counters are kept but nothing is claimed of them except at reset.
- Topology, reconnection, workers, capability negotiation, policy and schedule clients, validators and durable steps.
