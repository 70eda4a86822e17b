# PoseidonOS storage core: a Dafny model

This project models the part of PoseidonOS, a user-space storage system, in which several operations have to
agree with each other: the tree of I/O callbacks, the SMART log query built on it, the flush counter, I/O
splitting, volume QoS admission, array rebuild, array mount, CPU-set construction, and array creation. What the
code changes in place is a class here, what it computes is a function, and what runs on several threads is a
transition system whose steps are single atomic operations or lock-held sections. The theorems range over all
inputs, all wirings and all runs.

| files | part of the system |
|---|---|
| `Callbacks`, `CallbackTree`, `CallbackRuns` | one callback; the protocol of a whole callback tree; its runs |
| `SmartLog`, `SmartFanIn` | merging SMART pages; the query as a client of the callback protocol |
| `FlushIo` | the stripe counter and completion flag of a flush |
| `IoSplit` | splitting a volume request and its buffer |
| `Qos` | admission and storage of volume policies |
| `ArrayRebuild`, `MountSequence` | detach, trigger, resume and completion of rebuilds; mount and unmount |
| `CpuWalk`, `CpuSets`, `CpuCounts` | walking a NUMA node; sets from counts; the sufficiency check |
| `Numerals`, `CpuMask`, `CpuList`, `CpuStrings` | sets from strings: masks, range lists, overlap |
| `Devices`, `ArrayCreation` | the device list; NUMA-aware options for a new array |
| `Options`, `Sums` | shared helpers |

Parameters stand for what the code gets from outside: `numa_node_of_cpu` is an arbitrary topology, waiting for a
state gives a boolean, a component's `Init` gives a boolean, device scans give lists, the RAID state after a
detach and the success of a metadata flush are chosen freely, the order of all concurrent steps is arbitrary.

## What does not hold

Eight promised properties fail on some inputs. The code is modelled as it is. Each has a failing input and the
exact condition under which the property holds.

- QoS: the converted minimum is cut to 32 bits, so a maximum can be admitted below it (`MaxIopsGap`, `MaxBwGap`).
- Flush: a stripe counted between the two reads of another makes the flush complete early (`DisturbedRunsFail`).
- Rebuild: `SetRebuild` only looks at the degraded state, so a late pass can bless a spare that was never rebuilt
  (`BlessesIffNoSwap`, `LatePassBlessesNewSpare`).
- Recovery: `NeedRecovery` reads state and block device separately and can reach its assertion (`TornNeedRecoveryExact`).
- SMART: a handler that is retried averages the CPU temperature in again (`RepeatIsHarmless`).
- Mount: unmounting stops at the last occurrence of the first component and can miss components before it
  (`LiveUnmount`, `ComponentsMatchIff`).
- Core counts: totals are 32-bit sums, so counts that wrap pass the sufficiency check (`CheckIsExact`).
- Range lists: 2^32 - 1 makes the counting loop endless, and larger numbers are cut to 32 bits
  (`PromiseIffSmall`, `PromiseOnMachine`).

Where comments and code disagree the model follows the code: the mask parser takes the cpu whose number equals
the core count while the list parser does not (`MaskTakesOneTooMany`). A list that begins with the number 0 and
the separator x is taken for a mask (`ListLooksLikeMask`).

## Model

| member | source | states |
|---|---|---|
| `Callbacks.MostCritical` | src/event_scheduler/callback.cpp:182-186 | The most critical error is the least set bit, and the size of the bitmap when no bit is set. |
| `Callbacks.Callback.constructor` | src/event_scheduler/callback.cpp:62-87 | A new callback waits for one caller, has no callee, no errors and no completions. |
| `Callbacks.Callback.InformError` | src/event_scheduler/callback.cpp:188-196 | An error other than success is counted modulo 2^32 and its bit is set if it is one of the kinds; success changes nothing. |
| `Callbacks.Callback.SetWaitingCount` | src/event_scheduler/callback.cpp:222-226 | The waiting count becomes the given number and nothing else changes. |
| `Callbacks.Callback.SetCallee` | src/event_scheduler/callback.cpp:228-248 | The callee is set once; a second call leaves it. |
| `Callbacks.Callback.RecordCallerCompletionAndCheckOkToCall` | src/event_scheduler/callback.cpp:250-275 | A caller's errors, bits and weight are added, and the answer is true exactly when the weight completes the waiting count. |
| `Callbacks.Callback.GetMostCriticalError` | src/event_scheduler/callback.cpp:182-186 | The loop finds the least set bit of the error bitmap. |
| `CallbackTree.GateStep` | src/event_scheduler/callback.cpp:198-275 | Every atomic step of the protocol keeps the gate: a callee's completion count is the weight of the callers that weighed in, and its job is open exactly when it is full and a closer has compared. |
| `CallbackTree.BelowIsDone` | src/event_scheduler/callback.cpp:198-220 | When a callback is no longer idle, everything in its subtree has weighed in. |
| `CallbackTree.ErrorStep` | src/event_scheduler/callback.cpp:188-275 | Every step conserves errors: the counts held in a subtree add up to the errors told in it, and a reported count stays frozen. |
| `CallbackTree.CountConserves` | src/event_scheduler/callback.cpp:250-262 | Moving a caller's count to its callee loses and duplicates no error in any enclosing subtree. |
| `CallbackRuns.BitStep` | src/event_scheduler/callback.cpp:188-275 | Every step keeps the bitmaps sound (each bit was told below), complete (each told error is set) and passed on. |
| `CallbackRuns.JobStep` | src/event_scheduler/callback.cpp:154-168 | Every step keeps that a job succeeds once, in order, and after its whole subtree. |
| `CallbackRuns.ExactlyOneOk` | src/event_scheduler/callback.cpp:250-275 | In every run of every balanced tree at most one caller of a callee is told to call it, exactly one once all have compared, and it is the one whose weight completed the count. |
| `CallbackRuns.CloserCompleted` | src/event_scheduler/callback.cpp:263-275 | That caller did take the count from below the waiting count to exactly the waiting count. |
| `CallbackRuns.SubtreeFirst` | src/event_scheduler/callback.cpp:154-220 | A job runs only after every callback below has finished its job and weighed in, and succeeds at most once. |
| `CallbackRuns.ReportsOnce` | src/event_scheduler/callback.cpp:198-220 | No callback adds its weight twice, however often its job was retried. |
| `CallbackRuns.CollectsAll` | src/event_scheduler/callback.cpp:188-262 | From the moment a callback is executed its error count is the number of errors told in its subtree, its bitmap holds every error told below it and its own once their calls have returned, and none of those below is more critical than the one it reports; when its job is done the bitmap is exactly that set and the most critical error its least. |
| `CallbackRuns.NoDeadlock` | src/event_scheduler/callback.cpp:154-275 | While some callback has not reported, a step is enabled that sets an outstanding bit or takes a callback forward. |
| `CallbackRuns.ForwardIsNearer` | src/event_scheduler/callback.cpp:154-275 | Each such step lowers a measure on the phases and outstanding bits of the whole tree. |
| `CallbackRuns.CanFinish` | src/event_scheduler/callback.cpp:154-275 | Every run of every tree has a continuation, without failing jobs, in which every callback has reported. |
| `CallbackRuns.StepsRefineRecord` | src/event_scheduler/callback.cpp:250-275 | The atomic steps, uninterrupted, have the effect of the record method. |
| `CallbackRuns.StepsRefineInform` | src/event_scheduler/callback.cpp:188-196 | The two atomic steps of an error report, uninterrupted, have the effect of the method. |
| `SmartLog.ResultPage.CalculateVarBasedVal` | src/admin/smart_log_update_request.cpp:68-126 | A disk's page is merged in: the first usable page is copied, later ones raise maxima and lower minima, a page without temperature is ignored. |
| `SmartLog.ResultPage.MaxSensors` | src/admin/smart_log_update_request.cpp:114-125 | Every sensor becomes the larger of the two readings. |
| `SmartLog.ResultPage.AddComponentTemperature` | src/admin/disk_smart_complete_handler.cpp:55-75 | The CPU temperature is averaged in and put into the first empty sensor. |
| `SmartLog.ResultPage.SetValFromSmartLogMgr` | src/admin/disk_smart_complete_handler.cpp:77-100 | The array's own counters replace those of the page. |
| `SmartLog.ResultPage.DoSpecificJob` | src/admin/disk_smart_complete_handler.cpp:102-112 | The handler's whole effect on the page. |
| `SmartLog.MergeCommutes` | src/admin/smart_log_update_request.cpp:68-126 | Two disk pages can be merged in either order. |
| `SmartLog.AnyOrder` | src/admin/smart_log_update_request.cpp:68-126 | Any two orders of the same disks merge to the same page up to the data units read, which the handler overwrites. |
| `SmartLog.MergedExtremes` | src/admin/smart_log_update_request.cpp:68-126 | Every merged field is the greatest (for the spares the least) value over the disks with a temperature, and without such a disk the page is unchanged. |
| `SmartLog.MergedCounters` | src/admin/smart_log_update_request.cpp:68-126 | Merging takes the data units read of the first disk with a temperature and leaves the other counters alone. |
| `SmartLog.UnitsAre` | src/admin/disk_smart_complete_handler.cpp:77-100 | A byte counter becomes the number of units of 512000 bytes begun, and one more when the last is full; no bytes are no units. |
| `SmartLog.AverageIsMean` | src/admin/disk_smart_complete_handler.cpp:63-66 | The new temperature is the mean of the old one and the CPU temperature in kelvin, rounded down. |
| `SmartLog.HandlerSets` | src/admin/disk_smart_complete_handler.cpp:55-112 | Which counter each field takes, that only the first empty sensor is filled, and that nothing else changes. |
| `SmartLog.RepeatIsHarmless` | src/admin/disk_smart_complete_handler.cpp:55-112 | For every 64-bit reading, running the handler twice equals running it once exactly when the temperature was within rounding distance of the reading as the 16-bit field shows it, and at most one sensor was empty or the value to fill in is 0. |
| `SmartLog.RepeatInRange` | src/admin/disk_smart_complete_handler.cpp:55-112 | For readings that fit the field: exactly when the temperature was within rounding distance and at most one sensor was empty. |
| `SmartLog.RepeatChangesPage` | src/admin/disk_smart_complete_handler.cpp:102-112 | A page and readings on which a second run changes the result. |
| `SmartFanIn.SendSmartCommandToDisk` | src/admin/disk_query_manager.cpp:76-115 | One request per disk is wired to one handler that waits for all of them; without disks nothing is built. |
| `SmartFanIn.StarIsValid` | src/admin/disk_query_manager.cpp:76-115 | That wiring meets what the callback protocol asks of its clients. |
| `SmartFanIn.HandlerRunsLast` | src/admin/disk_query_manager.cpp:76-115 | In every run the handler's jobs come after all merges. |
| `SmartFanIn.SameFinalPage` | src/admin/disk_query_manager.cpp:76-115 | Every complete run ends with the handler applied, as often as it ran, to the merge of all disk pages in disk order. |
| `SmartFanIn.OrderDoesNotMatter` | src/admin/disk_query_manager.cpp:76-115 | Two complete runs with equally many handler runs give the same page whatever the interleaving. |
| `FlushIo.FlushRequest.constructor` | src/bio/flush_io.cpp:39-53 | No stripes, no flag set. |
| `FlushIo.FlushRequest.IncreaseStripeCnt` | src/bio/flush_io.cpp:137-141 | One more stripe is counted. |
| `FlushIo.FlushRequest.DecreaseStripeCnt` | src/bio/flush_io.cpp:143-152 | One stripe less; the flag is set if that was the last one and the scan is over. |
| `FlushIo.FlushRequest.StripesScanComplete` | src/bio/flush_io.cpp:154-163 | The scan is over; the flag is set if no stripe is counted. |
| `FlushIo.RunInv` | src/bio/flush_io.cpp:137-163 | In every interleaving of the atomic operations the count is the number of counted stripes and an empty, scanned flush is complete or still being looked at. |
| `FlushIo.NoLostCompletion` | src/bio/flush_io.cpp:137-163 | When all threads have left, a scanned flush without stripes is complete. |
| `FlushIo.CompleteImpliesEmpty` | src/bio/flush_io.cpp:143-163 | The flag is only set on an empty flush if no increase falls between another thread's two reads. |
| `FlushIo.DisturbedRunsFail` | src/bio/flush_io.cpp:143-163 | Every run with such an increase has a continuation that completes early. |
| `FlushIo.TornReadsExist` | src/bio/flush_io.cpp:143-163 | Such a run exists with two stripes. |
| `FlushIo.FlagIsExact` | src/bio/flush_io.cpp:137-163 | With whole methods as steps the flag is set exactly when the scan was declared complete and as many decreases as increases were called. |
| `FlushIo.CountIsExact` | src/bio/flush_io.cpp:137-152 | In every history of calls the count is the number of increases minus the number of decreases. |
| `FlushIo.StepsRefineMethods` | src/bio/flush_io.cpp:137-163 | The atomic accesses of each method, uninterrupted, have its effect. |
| `Qos.JudgeVolume` | src/cli/create_qos_volume_policy_command.cpp:130-323 | A request is refused, changes nothing or gives the wanted policy, exactly as the limits and cross checks say. |
| `Qos.CheckMinBw` | src/cli/create_qos_volume_policy_command.cpp:143-174 | A minimum bandwidth is accepted exactly when it is in range and, if new, below the stored maximum and the converted stored maximum request rate. |
| `Qos.CheckMaxBw` | src/cli/create_qos_volume_policy_command.cpp:176-209 | A maximum bandwidth is accepted exactly when it is in range and, if new, above the old and new minimum and the converted old minimum request rate. |
| `Qos.CheckMinIops` | src/cli/create_qos_volume_policy_command.cpp:211-251 | A minimum request rate is accepted exactly when it is in range and, if new, below the stored maximum and the converted old and new maximum bandwidths. |
| `Qos.CheckMaxIops` | src/cli/create_qos_volume_policy_command.cpp:253-295 | A maximum request rate is accepted exactly when it is in range and, if new, above the old and new minimum and the converted old and new minimum bandwidths. |
| `Qos.PolicyTable.CreateVolumePolicy` | src/cli/create_qos_volume_policy_command.cpp:297-320 | The volumes are judged and stored in order, and the first refusal or failure stops. |
| `Qos.PolicyTable.ResetVolumePolicy` | src/cli/reset_qos_volume_policy_command.cpp:109-135 | The volumes are reset in order until the volume manager fails. |
| `Qos.ResetResets` | src/cli/reset_qos_volume_policy_command.cpp:109-135 | A reset succeeds exactly when the volume manager takes every volume; every volume reached and stored is unlimited afterwards and every other one keeps its policy. |
| `Qos.CreateGives` | src/cli/create_qos_volume_policy_command.cpp:130-320 | After an accepted create every listed volume that is stored has the limits given and its old ones for the rest; after any create a volume has its old policy or those, and one not listed its old one. |
| `Qos.CreateStops` | src/cli/create_qos_volume_policy_command.cpp:130-320 | A create goes through its volumes up to the first refused by a check or the volume manager, keeps what it stored, and succeeds exactly when there is none. |
| `Qos.WantedIsAsked` | src/cli/create_qos_volume_policy_command.cpp:143-295 | The policy asked for has the given limits, the old ones for the rest, and a guarantee for each given minimum. |
| `Qos.RefusesExactly` | src/cli/create_qos_volume_policy_command.cpp:143-295 | Where limits convert exactly, a request is refused exactly when a limit it gives does not fit the stored policy in exact byte rates, or two kinds of minimum would be guaranteed. |
| `Qos.HistoryOrdered` | src/cli/create_qos_volume_policy_command.cpp:130-323 | After every history of commands each stored minimum is below its maximum and there is at most one kind of minimum. |
| `Qos.HistoryCrossOrdered` | src/cli/create_qos_volume_policy_command.cpp:130-323 | After every history with minima that convert to 32 bits, minima are also below the maxima of the other unit. |
| `Qos.MaxIopsGap` | src/cli/create_qos_volume_policy_command.cpp:267-294 | A sane policy admits a maximum request rate below its minimum bandwidth exactly when the conversion needs more than 32 bits. |
| `Qos.MaxBwGap` | src/cli/create_qos_volume_policy_command.cpp:189-208 | The same for a maximum bandwidth and a minimum request rate. |
| `Qos.GapHistory` | src/cli/create_qos_volume_policy_command.cpp:253-295 | Two accepted commands that leave a minimum above a maximum. |
| `IoSplit.DataBuffer.constructor` | src/bio/data_buffer.cpp:42-62 | A buffer owns its memory exactly when it allocated it. |
| `IoSplit.DataBuffer.Copy` | src/bio/data_buffer.cpp:64-71 | A copy shares the window and owns nothing. |
| `IoSplit.DataBuffer.Remove` | src/bio/data_buffer.cpp:140-160 | The window shrinks at the chosen end, and a removal larger than the window is refused. |
| `IoSplit.VolumeIo.Copy` | src/bio/volume_io.cpp:61-70 | A copied request has the same address and shares the buffer. |
| `IoSplit.VolumeIo.Split` | src/bio/volume_io.cpp:76-93 | The request keeps one part, the returned request has the other, and the address moves with the front. |
| `IoSplit.VolumeIo.ReflectSplit` | src/bio/ubio.cpp:286-295 | Both buffers are cut at the same place. |
| `IoSplit.SplitEnds` | src/bio/volume_io.cpp:76-93 | A split from the tail cuts off exactly the last sectors and one from the head exactly the first, the rest is kept, and the part cut off does not own the memory. |
| `IoSplit.SplitAddresses` | src/bio/volume_io.cpp:79-89 | The part at the head keeps the address and the part at the tail comes right after it. |
| `IoSplit.DataBuffer.GetAddress` | src/bio/data_buffer.cpp:95-120 | A sector inside the window has the address at its distance from the window, and one outside yields the base. |
| `IoSplit.PiecesTile` | src/bio/volume_io.cpp:76-93 | After any sequence of splits every byte lies in exactly one piece, none outside, one piece owns the memory, and addresses follow the windows. |
| `IoSplit.PiecesApart` | src/bio/data_buffer.cpp:140-160 | No two pieces share a byte and no two own the memory. |
| `IoSplit.SameSector` | src/bio/volume_io.cpp:76-93 | Every byte keeps the sector it had in the first request. |
| `ArrayRebuild.Imported` | src/array/device/array_device_manager.cpp:126-185 | An imported slot is in fault exactly when it has no block device, which is when it was stored in fault or its device is missing; otherwise it has the stored state and the device found. |
| `ArrayRebuild.FirstFaulty` | src/array/device/array_device_manager.cpp:347-359 | The first slot in fault, if there is one. |
| `ArrayRebuild.Array.DetachData` | src/array/array.cpp:728-767 | A slot that is not in fault loses its block device, the array state follows, and a rebuild is queued when degraded. |
| `ArrayRebuild.Array.DetachDevice` | src/array/array.cpp:599-653 | The same for a detach event on a data slot. |
| `ArrayRebuild.Array.IsRecoverable` | src/array/array.cpp:566-588 | A failed I/O detaches the device only if the array is up and the device is still in its slot. |
| `ArrayRebuild.Array.TriggerRebuild` | src/array/array.cpp:817-888 | A spare is installed and a rebuild started exactly when the slot is empty, the state admits it and a spare is left. |
| `ArrayRebuild.Array.GetFaulty` | src/array/device/array_device_manager.cpp:347-359 | The loop finds the first slot in fault. |
| `ArrayRebuild.Array.SetRebuild` | src/array/state/array_state.cpp:364-382 | Rebuilding starts exactly from the degraded state once the situation is reached. |
| `ArrayRebuild.Array.ResumeRebuild` | src/array/array.cpp:890-923 | A rebuild of the slot's present block device is started when the state admits it. |
| `ArrayRebuild.Array.SetRebuildDone` | src/array/state/array_state.cpp:412-424 | A successful rebuild takes a rebuilding array online. |
| `ArrayRebuild.Array.RebuildDone` | src/array/array.cpp:769-815 | A pass marks the slot normal unless it is in fault; a failure or a lost target queues another rebuild. |
| `ArrayRebuild.Array.AddSpare` | src/array/array.cpp:363-421 | A spare is added to a mounted array, and a degraded array then queues a rebuild event. |
| `ArrayRebuild.Array.GetRebuilding` | src/array/device/array_device_manager.cpp:361-373 | The loop finds the first slot in rebuild. |
| `ArrayRebuild.Array.CheckRebuildNecessity` | src/array/array.cpp:675-699 | At the end of a mount an event is queued for the slot left in rebuild, or for the first one in fault. |
| `ArrayRebuild.Array.Dispatch` | src/array/rebuild/rebuild_handler.cpp:43-47 | A worker takes an event from the queue and decides, without the lock, between resuming and triggering. |
| `ArrayRebuild.Array.ExecuteTrigger` | src/array/rebuild/rebuild_handler.cpp:51-56 | The event triggers a rebuild and is queued again when its target is not detached yet. |
| `ArrayRebuild.Array.ExecuteResume` | src/array/rebuild/rebuild_handler.cpp:47-56 | The event resumes a rebuild and is queued again when it was started. |
| `ArrayRebuild.AlwaysFaultIffEmpty` | src/array/array.cpp:566-923 | In every run a slot is in fault exactly when it has no block device. |
| `ArrayRebuild.SlotStep` | src/array/array.cpp:728-888 | Over all steps, a slot changes only by a detach of its device, an installed spare, or the pass of a rebuild of it, and how. |
| `ArrayRebuild.InstallsWhen` | src/array/array.cpp:817-862 | A spare is installed exactly in a degraded array with a spare left, into the empty slot the event is about or else the first one in fault. |
| `ArrayRebuild.OnlyPassMarksNormal` | src/array/array.cpp:769-806 | A slot becomes normal exactly by the pass of a rebuild of it that finds it in rebuild. |
| `ArrayRebuild.NormalOnlyByPass` | src/array/array.cpp:769-806 | In every run a slot that has become normal did so by such a pass. |
| `ArrayRebuild.FailedCompletion` | src/array/array.cpp:776-785 | In every run a failed completion leaves slots, spares and status alone and queues another rebuild. |
| `ArrayRebuild.StatusStep` | src/array/state/array_state.cpp:311-424 | Over all steps, the status follows the RAID state of a detach, the start of a rebuild and its pass, and nothing else. |
| `ArrayRebuild.SpareStep` | src/array/device/array_device_list.cpp:287-305 | A spare comes by being added and goes by being installed, the last one first. |
| `ArrayRebuild.JobsStep` | src/array/array.cpp:817-923 | Rebuilds are started for an installed spare whose metadata was written and for a resumed slot, and end by their completion. |
| `ArrayRebuild.EventStep` | src/array/array.cpp:363-923 | Over all steps, exactly which rebuild events are queued, and that they leave the queue only for the worker that takes them up. |
| `ArrayRebuild.FaithfulStep` | src/array/array.cpp:817-888 | A step keeps every unfinished rebuild on its own device exactly when it does not put a spare under it. |
| `ArrayRebuild.CompletionBlessesRebuilt` | src/array/array.cpp:769-815 | Without such steps a pass marks a slot normal only with the rebuilt device in it and otherwise queues another rebuild. |
| `ArrayRebuild.BlessesIffNoSwap` | src/array/array.cpp:728-923 | At every point of a run every pass would mark only the rebuilt device, or queue another rebuild, exactly when no step of the run put a spare under an unfinished rebuild. |
| `ArrayRebuild.SwappedRunsFail` | src/array/array.cpp:769-888 | Every run with such a step has a continuation whose pass marks a device normal that was not the one rebuilt. |
| `ArrayRebuild.ContractIsEnough` | src/array/array.cpp:728-923 | If no rebuild is admitted before the last one is done, that holds in every run. |
| `ArrayRebuild.LatePassBlessesNewSpare` | src/array/state/array_state.cpp:364-382 | A run of queued events only (mount, rebuild, detach, added spare, second rebuild) in which a late pass marks an unrebuilt spare normal. |
| `ArrayRebuild.NeedRecoverySafe` | src/bio/ubio.cpp:388-418 | Taken as one step, the recovery check never reaches its assertion, asks for recovery exactly for an empty slot or a read of one in rebuild, and otherwise proceeds on its device. |
| `ArrayRebuild.TornNeedRecoveryExact` | src/bio/ubio.cpp:388-418 | With its two reads at two points of a run the recovery check reaches its assertion exactly when the first read let it proceed and in between a detach took the device out and nothing was put in since. |
| `ArrayRebuild.OnlyDetachEmpties` | src/array/array.cpp:728-745 | Only a detach, on an event or after a failed I/O, takes the block device out of a slot. |
| `ArrayRebuild.TornNeedRecoveryFails` | src/bio/ubio.cpp:388-418 | A detach between its two reads that makes it reach the assertion. |
| `MountSequence.ArrayMountSequence.constructor` | src/array_components/array_mount_sequence.cpp:55-70 | A new sequence has made no calls. |
| `MountSequence.ArrayMountSequence.Mount` | src/array_components/array_mount_sequence.cpp:84-150 | The calls made, the result and the new state for every outcome of the wait and of the Inits. |
| `MountSequence.ArrayMountSequence.RollBack` | src/array_components/array_mount_sequence.cpp:137-149 | The components from the failing one back to the first are disposed, last first. |
| `MountSequence.ArrayMountSequence.Unmount` | src/array_components/array_mount_sequence.cpp:152-194 | The calls made and the new state; disposal stops at the last occurrence of the first component. |
| `MountSequence.RunsKeepPrefix` | src/array_components/array_mount_sequence.cpp:84-194 | With the first component listed once, in every run the positions whose Init has not been undone are a prefix at every point, all while mounted and none while not. |
| `MountSequence.AtEveryPoint` | src/array_components/array_mount_sequence.cpp:84-194 | What that means for each single point of the call log. |
| `MountSequence.UnmountReplay` | src/array_components/array_mount_sequence.cpp:172-190 | Unmounting undoes every Init with a Dispose of its own exactly when the first component is listed once. |
| `MountSequence.LiveUnmount` | src/array_components/array_mount_sequence.cpp:172-190 | Which components stay initialised after unmounting, and that there are none exactly when each one listed before the last occurrence of the first is the first itself or listed again after it. |
| `MountSequence.RunsKeepComponents` | src/array_components/array_mount_sequence.cpp:84-194 | Under that condition, in every run all components are initialised while mounted and none while not. |
| `MountSequence.ComponentsMatchIff` | src/array_components/array_mount_sequence.cpp:84-194 | The condition is necessary too: it holds exactly when every run ends with the components matching the state. |
| `MountSequence.MissedLeaks` | src/array_components/array_mount_sequence.cpp:172-183 | Without it a mount and unmount leaves a component initialised. |
| `MountSequence.RepeatedFronts` | src/array_components/array_mount_sequence.cpp:172-183 | The first component listed twice in a row is harmless; with another one in between, that one is missed unless it is listed again. |
| `MountSequence.ComponentsArePrefix` | src/array_components/array_mount_sequence.cpp:84-194 | With distinct components, the initialised ones are those of a prefix of the sequence at every point of every run. |
| `MountSequence.RollBackReverses` | src/array_components/array_mount_sequence.cpp:103-149 | A failed mount disposes what it tried to initialise in exactly reverse order. |
| `MountSequence.UnmountReverses` | src/array_components/array_mount_sequence.cpp:172-187 | Unmounting disposes in the reverse of the order in which mounting initialised. |
| `MountSequence.MountInitsInOrder` | src/array_components/array_mount_sequence.cpp:92-149 | A mount calls Init in order up to the first failure, and one that missed its state only disposes the first component. |
| `MountSequence.UnmountFlushes` | src/array_components/array_mount_sequence.cpp:170-187 | The volumes are detached before any disposal, and the first component is flushed after the others are disposed and right before its own disposal. |
| `MountSequence.UnmountDisposes` | src/array_components/array_mount_sequence.cpp:172-183 | The components after the last occurrence of the first one are disposed, last first. |
| `CpuWalk.NextIs` | src/cpu_affinity/cpu_set_generator.cpp:91-112 | The next core is the next one in the increasing list of the node's cores, and the first after the last. |
| `CpuWalk.WalkCycles` | src/cpu_affinity/cpu_set_generator.cpp:91-112 | After k steps the walk is k places further, modulo the number of the node's cores. |
| `CpuWalk.SingleCycle` | src/cpu_affinity/cpu_set_generator.cpp:91-112 | The walk stays on the node, reaches every core of it, and is back after one round, whatever cores lie between. |
| `CpuWalk.NothingThere` | src/cpu_affinity/cpu_set_generator.cpp:91-118 | A node without cores starts at core 0, and a disabled core is followed by core 0. |
| `CpuSets.CpuSetGenerator.constructor` | src/cpu_affinity/cpu_set_generator.cpp:43-55 | The first core of every node is known and all sets are empty. |
| `CpuSets.CpuSetGenerator.SetNumaInformation` | src/cpu_affinity/cpu_set_generator.cpp:68-89 | Every node's entry is its smallest enabled core, and 0 for a node without one. |
| `CpuSets.CpuSetGenerator.GetNextCpuFromThisNuma` | src/cpu_affinity/cpu_set_generator.cpp:91-112 | The do-while search ends and finds the next core of the node, and 0 for a disabled core. |
| `CpuSets.CpuSetGenerator.CalculateCoreSet` | src/cpu_affinity/cpu_set_generator.cpp:120-136 | The set holds the cores met in the given number of steps, and the next core comes after them. |
| `CpuSets.CpuSetGenerator.AddCoreSet` | src/cpu_affinity/cpu_set_generator.cpp:138-148 | Those cores are added to the role's set and no other set changes. |
| `CpuSets.AddNode` | src/cpu_affinity/count_descripted_cpu_set_generator.cpp:42-50 | On one node every description takes its cores where the one before it stopped. |
| `CpuSets.CountDescriptedCpuSetGenerator` | src/cpu_affinity/count_descripted_cpu_set_generator.cpp:37-52 | Every role's set is the union of its portions over all nodes. |
| `CpuCounts.AffinityManager.constructor` | src/cpu_affinity/affinity_manager.cpp:67-84 | The counters hold each node's cores and, modulo 2^32, what is asked of it. |
| `CpuCounts.AffinityManager.CountSystemCores` | src/cpu_affinity/affinity_manager.cpp:128-142 | Counts the enabled cores of every node. |
| `CpuCounts.AffinityManager.CountDescriptedCores` | src/cpu_affinity/affinity_manager.cpp:144-152 | Adds up the requested cores of every node in 32 bits. |
| `CpuCounts.AffinityManager.IsCoreSufficient` | src/cpu_affinity/affinity_manager.cpp:155-169 | True exactly when no 32-bit total exceeds its node's cores. |
| `CpuCounts.CheckIsExact` | src/cpu_affinity/affinity_manager.cpp:128-169 | The cores suffice exactly when the check says so and no total reaches 2^32. |
| `CpuCounts.RolesApart` | src/cpu_affinity/count_descripted_cpu_set_generator.cpp:37-52 | When the cores suffice, different roles get disjoint sets. |
| `CpuCounts.RoleGetsWhatItAsked` | src/cpu_affinity/count_descripted_cpu_set_generator.cpp:37-52 | When the cores suffice, each role has on each node exactly as many cores as asked. |
| `CpuCounts.AskedForOnce` | src/cpu_affinity/count_descripted_cpu_set_generator.cpp:42-50 | A role described once asks for the number its description gives. |
| `CpuCounts.AskedIsSum` | src/cpu_affinity/affinity_manager.cpp:144-152 | What is asked of a node is the sum of the numbers given for it. |
| `CpuCounts.WrappedTotalsShareCores` | src/cpu_affinity/affinity_manager.cpp:144-169 | Counts that wrap to zero pass the check, and two roles share a core. |
| `CpuMask.GetCPUSetString` | src/cpu_affinity/affinity_manager.cpp:250-274 | The nibble loop prints one digit per four cpus and one more, highest first. |
| `CpuMask.MaskMeaning` | src/cpu_affinity/string_descripted_cpu_set_generator.cpp:76-126 | Every string of hexadecimal digits up to the 2^30 digits whose cpus have 32-bit numbers is parsed to the cpus its digits stand for, or refused if one is reserved or above the core count. |
| `CpuMask.MaskRoundTrip` | src/cpu_affinity/affinity_manager.cpp:250-274 | Parsing a printed set gives the set back, for every core count and every set of cores. |
| `CpuMask.MaskTakesOneTooMany` | src/cpu_affinity/string_descripted_cpu_set_generator.cpp:100-101 | A mask with the cpu whose number is the core count is accepted. |
| `CpuMask.BitsAre` | src/cpu_affinity/string_descripted_cpu_set_generator.cpp:93-119 | A chunk takes exactly the cpus whose bits are set in its number. |
| `CpuMask.MaskRefusesIff` | src/cpu_affinity/string_descripted_cpu_set_generator.cpp:76-126 | A mask of digits is refused exactly when one of its cpus is reserved or above the core count, and otherwise gives exactly its cpus and reserves them if asked to. |
| `CpuList.LoopEnds` | src/cpu_affinity/string_descripted_cpu_set_generator.cpp:165-174 | The 32-bit counting loop of a range ends exactly when its bound is not 2^32 - 1. |
| `CpuList.ReadEntry` | src/cpu_affinity/string_descripted_cpu_set_generator.cpp:136-153 | The front of a written list is read as its first entry, with the rest after its separator. |
| `Numerals.NumeralValue` | src/cpu_affinity/string_descripted_cpu_set_generator.cpp:91-91 | A number written in the usual way, decimal or hexadecimal, is read as that number. |
| `Numerals.ReadWritten` | src/cpu_affinity/string_descripted_cpu_set_generator.cpp:139-139 | Leading spaces and a sign are skipped, a minus sign negates in 64 bits, and a missing or too large number is an exception. |
| `CpuList.ListMeaning` | src/cpu_affinity/string_descripted_cpu_set_generator.cpp:128-163 | Every written list of numbers and ranges is parsed to what its entries come to. |
| `CpuList.PromiseIffSmall` | src/cpu_affinity/string_descripted_cpu_set_generator.cpp:128-195 | A list is parsed to exactly the named cpus, or refused because a range does not fit, on every machine, exactly when its numbers are below 2^32 - 1. |
| `CpuList.PromiseOnMachine` | src/cpu_affinity/string_descripted_cpu_set_generator.cpp:128-195 | On any one machine, with any reserved cores, a list is parsed as promised exactly when its numbers are below 2^32 - 1, or it is refused as its numbers are read in 32 bits. |
| `CpuList.SmallKeepsPromise` | src/cpu_affinity/string_descripted_cpu_set_generator.cpp:165-195 | For such numbers the result is the union of the ranges, or a refusal when one exceeds the core count or overlaps. |
| `CpuList.LargeNumbersBreakPromise` | src/cpu_affinity/string_descripted_cpu_set_generator.cpp:165-195 | The list "4294967296" is taken for core 0 and the list "4294967295" never returns. |
| `CpuStrings.StringDescriptedCpuSetGenerator.constructor` | src/cpu_affinity/string_descripted_cpu_set_generator.cpp:46-49 | All sets and the overlap set are empty. |
| `CpuStrings.StringDescriptedCpuSetGenerator.SetBits` | src/cpu_affinity/string_descripted_cpu_set_generator.cpp:93-119 | The bit loop takes all cpus of a chunk, or refuses if one of them may not be used. |
| `CpuStrings.StringDescriptedCpuSetGenerator.SetCpuMaskFromMask` | src/cpu_affinity/string_descripted_cpu_set_generator.cpp:76-126 | The chunk loop computes the mask parse, the overlap set and the role's set. |
| `CpuStrings.StringDescriptedCpuSetGenerator.SetCpuRange` | src/cpu_affinity/string_descripted_cpu_set_generator.cpp:165-195 | A range is added, refused, or counted for ever. |
| `CpuStrings.StringDescriptedCpuSetGenerator.NextItem` | src/cpu_affinity/string_descripted_cpu_set_generator.cpp:136-153 | One number or range is split off the string. |
| `CpuStrings.StringDescriptedCpuSetGenerator.SetCpuMaskFromAllowedList` | src/cpu_affinity/string_descripted_cpu_set_generator.cpp:128-163 | The item loop computes the list parse, the overlap set and the role's set. |
| `CpuStrings.StringDescriptedCpuSetGenerator.SetCpuMaskFromString` | src/cpu_affinity/string_descripted_cpu_set_generator.cpp:60-74 | The hexadecimal prefix decides between mask and list. |
| `CpuStrings.StringDescriptedCpuSetGenerator.Generate` | src/cpu_affinity/string_descripted_cpu_set_generator.cpp:46-54 | The descriptions are parsed in order and the first that fails ends it. |
| `CpuStrings.OverlapFree` | src/cpu_affinity/string_descripted_cpu_set_generator.cpp:46-195 | With overlap forbidden, any accepted list of strings gives disjoint sets, and the overlap set is their union. |
| `CpuStrings.RolesDisjoint` | src/cpu_affinity/string_descripted_cpu_set_generator.cpp:46-54 | Different roles then have disjoint sets inside the overlap set, also when a role is described twice. |
| `CpuStrings.StringRoundTrip` | src/cpu_affinity/string_descripted_cpu_set_generator.cpp:60-74 | A printed set with the prefix goes through the mask parser and comes back. |
| `CpuStrings.ListLooksLikeMask` | src/cpu_affinity/string_descripted_cpu_set_generator.cpp:64-69 | A written list is taken for a mask exactly when it starts with the number 0 and an x as separator. |
| `CpuStrings.StringIsList` | src/cpu_affinity/string_descripted_cpu_set_generator.cpp:70-73 | Every other written list is parsed as promised, exactly when its numbers are small or it is refused as read. |
| `CpuStrings.StringIsMask` | src/cpu_affinity/string_descripted_cpu_set_generator.cpp:65-69 | Every mask of digits with the prefix is parsed to the cpus its digits stand for, or refused. |
| `CpuStrings.GivenIs` | src/cpu_affinity/string_descripted_cpu_set_generator.cpp:46-54 | Each description gets what its string is parsed to after those before it. |
| `CpuStrings.NothingReserved` | src/cpu_affinity/string_descripted_cpu_set_generator.cpp:46-195 | Without the overlap check nothing is ever reserved. |
| `CpuStrings.RoleGetsItsList` | src/cpu_affinity/string_descripted_cpu_set_generator.cpp:46-163 | A role last described by a list gets exactly the cpus the list names, all below the core count. |
| `CpuStrings.RoleGetsItsMask` | src/cpu_affinity/string_descripted_cpu_set_generator.cpp:46-126 | A role last described by a mask gets exactly the cpus its digits stand for. |
| `CpuStrings.AcceptsIff` | src/cpu_affinity/string_descripted_cpu_set_generator.cpp:46-54 | The descriptions are accepted exactly when each parses after those before it. |
| `CpuStrings.FirstStops` | src/cpu_affinity/string_descripted_cpu_set_generator.cpp:46-54 | The first description that does not parse decides how it ends. |
| `Devices.DeviceManager.GetDev` | src/device/device_manager.cpp:369-383 | The first listed device with the name. |
| `Devices.DeviceManager.CheckDuplication` | src/device/device_manager.cpp:208-224 | True exactly when neither name nor serial number is listed. |
| `Devices.DeviceManager.InitScan` | src/device/device_manager.cpp:243-264 | The scanned devices of all drivers are listed unless they duplicate one. |
| `Devices.DeviceManager.AttachDevice` | src/device/device_manager.cpp:424-437 | A device is appended exactly when it is no duplicate. |
| `Devices.DeviceManager.RemoveDevice` | src/device/device_manager.cpp:266-300 | The device is taken out, or reported as not found. |
| `Devices.AlwaysUnique` | src/device/device_manager.cpp:208-300 | After any history of scans, attachments, removals and class changes no two devices share a name or a serial number. |
| `Devices.RemoveKeeps` | src/device/device_manager.cpp:266-300 | Removal takes out exactly the device and keeps uniqueness. |
| `Devices.FindNameExact` | src/device/device_manager.cpp:369-383 | Under uniqueness a lookup finds a device exactly when it is listed. |
| `Devices.AdmitAllExact` | src/device/device_manager.cpp:243-264 | A scan removes nothing, and afterwards every scanned device's name or serial number is listed. |
| `Devices.ScanExact` | src/device/device_manager.cpp:243-264 | A scan of all drivers removes nothing, adds only devices some driver found, and leaves the name or serial number of every found device listed. |
| `Devices.AdmitIs` | src/device/device_manager.cpp:208-224 | A device is appended exactly when no listed one has its name or serial number. |
| `Devices.ReclassedOnly` | src/array/device/array_device_list.cpp:160-220 | Taking a device into an array changes the class of that device only. |
| `ArrayCreation.GroupByIs` | src/helper/enumerable/query.h:41-51 | Grouping lists every key in use once, in order, with its devices in their old order. |
| `ArrayCreation.SelectDevices` | src/array_mgmt/numa_awared_array_creation.cpp:65-79 | The first devices are for data, the next ones for spares. |
| `ArrayCreation.SearchSizes` | src/array_mgmt/numa_awared_array_creation.cpp:57-96 | The options of one node. |
| `ArrayCreation.NumaAwaredArrayCreation` | src/array_mgmt/numa_awared_array_creation.cpp:41-98 | The options of all nodes, and success exactly when there is one. |
| `ArrayCreation.OneOptionPerGroup` | src/array_mgmt/numa_awared_array_creation.cpp:41-98 | There is exactly one option for each node and size whose system devices are enough and whose node has the first buffer, in order, made of those devices. |
| `ArrayCreation.OptionHolds` | src/array_mgmt/numa_awared_array_creation.cpp:65-92 | For non-negative counts an option has exactly the requested devices, with different names, all of its node and size. |
| `ArrayCreation.OptionIs` | src/array_mgmt/numa_awared_array_creation.cpp:61-92 | For non-negative counts the data devices are the first of the group and the spares the next, the capacity is the total size of the data devices in 64 bits, and the buffer is the first one given. |
| `ArrayCreation.SuitableIs` | src/array_mgmt/numa_awared_array_creation.cpp:60-90 | A group gives an option exactly when it has as many devices as data and spares together and the first buffer names a listed device on its node. |
| `ArrayCreation.WhereInOrder` | src/helper/enumerable/query.h:68-81 | Filtering keeps the order of the devices. |
| `ArrayCreation.OptionsAfterAnyHistory` | src/array_mgmt/numa_awared_array_creation.cpp:41-98 | That holds after every history of the device list. |

## Left out

- The `executed` flag and the timeout checker of a callback; a callback counts as done when it has weighed in.
- CallbackRuns.CollectsAll: needs fewer than 2^32 errors told in each subtree (`Bounded`), because the counters are 32 bits wide.
- InformError calls that arrive after the callback's own job has ended.
- The mutex around one page merge is taken as one step.
- JSON parsing, replies and logging of the CLI commands, and QoS changes made by volume events.
- Array creation, deletion and partitions of `Array`; spares that are removed or detached, and mount state changes, are one step that sets them freely.
- The event queued at the end of a mount is one step, although the code does not hold the lock for it.
- `ArrayMountSequence::Shutdown`, the flush of all components on stop, and the time limit of `_WaitState`; whether the array counts as mounted is a field that only Mount and Unmount change.
- `cpu_set_t` has 1024 bits; the sets here are unbounded, which differs only for cpu numbers from 1024 on.
- The poverty CPU-set generator, the affinity configuration parser and the choice of event worker sockets.
- The overlap check is switched off in the shipped affinity manager; the overlap theorems are about the generator when it is on.
- `DeviceManager::_Rescan`, monitors, drivers and the I/O dispatcher calls around attach and remove.
- The sum of data and spare counts is not cut to 32 bits in array creation.
- Calls into SPDK, DPDK and libnuma.
