# Verified models of the hammerhead device tree

The device tree of an Android phone contains a camera HAL (QCamera2, HAL1) and a few small
programs. This project models the stateful parts of it and proves what they promise.

| file | part |
|---|---|
| `ParmBatch.dfy` | the parameter buffer: pending parameters as a sorted list threaded through a table |
| `ParameterCommit.dfy`, `StagedNames.dfy`, `Parameters.dfy` | staging settings and committing them to the backend |
| `Queues.dfy` | the queue every worker thread uses |
| `Pipeline.dfy`, `PipelineEffects.dfy`, `PipelineFrames.dfy`, `PipelineProtocol.dfy`, `PipelinePairing.dfy`, `EncodeInput.dfy`, `PostProc.dfy` | the post-processor: five queues, a worker, an encoder and a reprocess backend |
| `PreviewOwnership.dfy`, `Gralloc.dfy` | preview buffers between driver, HAL and display window |
| `SnapshotCount.dfy`, `Notifier.dfy` | the callback notifier and its snapshot count |
| `StreamBuffers.dfy` | allocating, mapping, defining and giving back the buffers of a stream |
| `Channel.dfy` | reprocess streams and the routing of frames to them |
| `SizeLists.dfy`, `AreaText.dfy`, `Areas.dfy`, `Gps.dfy` | size lists, focus and metering areas, GPS coordinates |
| `BdAddr.dfy` | loading a Bluetooth address, formatting it in place and printing it |
| `Bootloader.dfy`, `UpdatePackage.dfy` | splitting a bootloader image and writing it to an update package |
| `Lights.dfy` | three lights multiplexed onto one LED |
| `Common.dfy` | options, traces, commands, and counting in sequences |

Where the source changes an object, the model is a class, and each of its methods is proved equal to
one step of a transition function on values. The properties are lemmas about those functions: about
one step, or, by induction over a trace of events, about every run; what a step does is stated from the
event and the state before it, apart from the function that computes it. What the outside answers (the
backend, the encoder, the window, the allocator) is a parameter of a step, so a lemma about all runs
is about all answers. Where an answer has to keep to a contract, a predicate says so: `EncoderOk`,
`BackendOk`, `WindowOk`, `AnswersOk`.

## Where the code falls short

Some properties one would expect do not hold of the code as it is. For each the project proves exactly
when it holds, and gives an input for which it does not.

- Flushing a queue makes it inactive (`QCameraQueue.cpp:260-289`), and HAL1 never calls `init()`
  again, as HAL3 does on every START (`HAL3/QCamera3PostProc.cpp:1037-1043`). The first STOP therefore
  ends the post-processor for good: every later frame is taken and lost (`ActiveUntilStop`,
  `DeadForGood`, `SecondSessionLosesFrame`). Frames are conserved exactly in runs whose events are all
  safe (`NothingLostIff`).
- When the encoder refuses a job, no command is sent. If it was the last command and more jobs wait,
  they wait until something else happens (`AlwaysWakeOkIff`, `StallHappens`).
- `start()` deletes a reprocess channel that may still owe answers, but leaves the frames waiting for
  them in the ongoing queue. Until the next STOP answers are paired with the wrong frames
  (`JoinsRightIff`, `AllJoinedRightIff`, `RestartBreaksPairing`).
- The ZSL mode and the recording hint have pending flags that outlive a refused batch, and the next
  accepted commit takes them over (`ModeAgreesIff`, `ZslDivergesAfterRefusal`,
  `HintDivergesAfterRefusal`). The ZSL string is committed before the batch is (`ZslStringAgreesIff`).
- The snapshot counter has 32 bits, so SNAPSHOT_DONE comes again after 2^32 more snapshots
  (`DoneOnceIff`, `DoneTwice`).
- A preview buffer that the window or the stream refuses is returned to nobody, and stays with the HAL
  until the preview is torn down (`FrameLeavesNothingIff`, `HalKeeps`, `HalUnchangedIff`,
  `OlderBufferStays`, `RefusedFrameStays`). An allocation that fails in ION forgets the buffer it has
  just taken (`QCameraGrallocMemory.Allocate`, `BufferForgotten`), and one of more than 64 buffers takes
  them behind its tables (`QCameraGrallocMemory.Allocate`, `TablesOverrun`).
- The check of focus areas is made on sizes that wrap around, and accepts areas far out of range if
  their corners are written in the wrong order (`AcceptedInRangeIff`, `AcceptedOutOfRange`). At
  preview sizes above 1,073,741 the sides of areas in range overflow as well (`LengthsFitIff`,
  `StagedInPreviewIff`, `LengthOverflows`), and a group of 32 characters or more outgrows the buffer
  it is copied to (`OverrunIff` of `AreaText`, `LongAreaOverruns`).
- An empty list of sizes is printed as an empty text, and parsed as one size that was never set: the
  loop looks for -1, while `parse_pair` returns BAD_VALUE (`RoundTripIff`).
- `putBufs` reports only the last unmapping (`GetThenPut`, `ReportedAsUnmapped`), and a buffer
  definition takes the file descriptors of planes from 1 on from other buffers (`OneFdIff`,
  `OtherBuffersFd`).
- A reprocess channel asked to reprocess more streams than it has room for writes a source handle
  behind its table before it refuses the stream (`OverrunIff` of `Channel`, `OverrunHappens`).
- A Bluetooth address loaded as text is formatted within its buffer only if it has ten to thirteen
  characters, and is then printed only if it has twelve (`FormattedLength`, `PrintsText`,
  `NineCharacters`).
- A backup partition whose original is not in the fstab makes the installation script ask for a file
  that is not in the package (`ScriptFilesPresentIff`, `BackupWithoutOriginal`).

## Assumptions

- A frame counts as released once `releaseSuperBuf` was called and the frame freed. STOP deletes the
  reprocess channel before it flushes the queues (`QCameraPostProc.cpp:1279-1296`), so for reprocessed
  frames that still wait there `releaseSuperBuf` finds no channel and returns no buffer to it; the
  channel's buffers go with the channel.
- Where the source would write outside a buffer, the model stops and says so: `overrun`, `Overrun`,
  `inBounds`.
- The padding behind the union of a Bluetooth address is zero, as `memset` left it.
- A command queue is first in, first out, except that STOP and EXIT go to its head. Enqueueing a job
  and sending the command for it is one step, as is a command of the worker with all it does.
- The backend answers the frames it accepted, in order. When it refuses a later buffer of a frame, the
  requests it accepted for earlier ones (`RefusedBehindAccepted`) get no answer.
- Every frame handed to the post-processor is a super buffer of its own.
- The display window holds the buffers it was asked to allocate and gives out only buffers it holds;
  cancelling a buffer succeeds.
- A buffer that is mapped or unmapped successfully is so; a refused call changes nothing.
- `CAM_INTF_PARM_MAX` is 127, counted in `cam_types.h:863-1107`; `long` and `int` have 32 bits; the HAL
  is built with `DEFAULT_ZSL_MODE_ON`.
- Sums, differences and products of ints in the area code wrap around. Floating-point expressions are
  exact, and are truncated where the source converts them to integers.

## Model

| member | source | states |
|---|---|---|
| `ParmBatch.Le32RoundTrip` | camera/QCamera2/HAL/QCameraParameters.cpp:6008-6008 | an int32 copied over an entry of any earlier contents is what the backend reads back |
| `ParmBatch.FlaggedIds` | camera/QCamera2/HAL/QCameraParameters.cpp:5943-6054 | after any sequence of sets and gets exactly HAL_VERSION and the ids added are flagged |
| `ParmBatch.LastWriteWins` | camera/QCamera2/HAL/QCameraParameters.cpp:6000-6010 | each id holds the last value that fitted, whatever was staged for other ids, read or refused since |
| `ParmBatch.EntryBytes` | camera/QCamera2/HAL/QCameraParameters.cpp:5943-6010 | each byte of an entry is that of the last fitting value that was long enough to reach it, 0 if there was none, and 1 for the byte that flags HAL_VERSION |
| `ParmBatch.AscendingUnique` | camera/QCamera2/HAL/QCameraParameters.cpp:5981-5998 | an ascending list of ids is determined by its set, so the walk of the links is |
| `ParmBatch.SpliceKeepsLinked` | camera/QCamera2/HAL/QCameraParameters.cpp:5987-5998 | setting two links behind the slot found turns a linked ascending list into the linked list with one more id; links off the list are left alone |
| `ParmBatch.PrependKeepsLinked` | camera/QCamera2/HAL/QCameraParameters.cpp:5984-5986 | a new lowest id becomes the first entry and the list behind it is unchanged |
| `ParmBatch.ParmBuffer.InitBatchUpdate` | camera/QCamera2/HAL/QCameraParameters.cpp:5943-5953 | the batch is HAL_VERSION alone, although the memset leaves links that point to 0 and not to the end |
| `ParmBatch.ParmBuffer.FindSlot` | camera/QCamera2/HAL/QCameraParameters.cpp:5988-5990 | the search loop stops at the last flagged id before the position, without ever following a link of an id that is not flagged |
| `ParmBatch.ParmBuffer.Link` | camera/QCamera2/HAL/QCameraParameters.cpp:5981-5998 | the list then threads exactly the flagged ids and the new one, in ascending order |
| `ParmBatch.ParmBuffer.AddSetParmEntryToBatch` | camera/QCamera2/HAL/QCameraParameters.cpp:5970-6010 | the abstract batch changes as by a map update; an oversized value is refused with BAD_VALUE but leaves its id flagged |
| `ParmBatch.ParmBuffer.AddGetParmEntryToBatch` | camera/QCamera2/HAL/QCameraParameters.cpp:6025-6054 | the id is flagged and no value changes |
| `ParmBatch.ParmBuffer.Walk` | camera/QCamera2/stack/common/cam_intf.h:388-407 | following the links terminates and visits exactly the flagged ids, strictly ascending |
| `ParmBatch.ParmBuffer.RunBatch` | camera/QCamera2/HAL/QCameraParameters.cpp:5943-6054 | init followed by any sequence of additions equals the map obtained by applying them, and the walk visits its ids |
| `ParameterCommit.LookupIsFirstMatch` | camera/QCamera2/HAL/QCameraParameters.cpp:942-951 | a name decodes to the value of its first entry in the table |
| `ParameterCommit.LookupAttr` | camera/QCamera2/HAL/QCameraParameters.cpp:942-951 | the search loop finds that entry, or reports that there is none |
| `ParameterCommit.NextKeepsAgreement` | camera/QCamera2/HAL/QCameraParameters.cpp:3574-3591 | every staging, refused or accepted commit and new batch keeps strings and entries of a setting in agreement |
| `ParameterCommit.CommittedIsAccepted` | camera/QCamera2/HAL/QCameraParameters.cpp:6067-6146 | over any run a setting has a committed string exactly when the backend has accepted a value for it, and the string decodes to that value; which string that is, `CommittedIsLastNamed` says |
| `StagedNames.CommittedIsLastNamed` | camera/QCamera2/HAL/QCameraParameters.cpp:6067-6146 | after any run the committed string of a setting is the last name of its table staged in a batch that was accepted, told from the events alone, and the backend reads back its value; there is none exactly if no such name was staged |
| `StagedNames.RunHolds` | camera/QCamera2/HAL/QCameraParameters.cpp:3574-3591 | the staged string is the last name known to the table since the last commit or new batch, and the batch carries its value; a name the user repeats from the committed one stages nothing |
| `StagedNames.RunModes` | camera/QCamera2/HAL/QCameraParameters.cpp:2532-2560 | after any run both modes, their pending values, their strings, what the batch carries and what the backend was last told are those the events tell |
| `ParameterCommit.BackendAlwaysAsked` | camera/QCamera2/HAL/QCameraParameters.cpp:6067-6078 | HAL_VERSION is always flagged, so no commit of a run is taken as accepted without the backend |
| `ParameterCommit.FailedCommitChangesNothing` | camera/QCamera2/HAL/QCameraParameters.cpp:6067-6078 | a refused commit leaves committed map, staged map, batch and both modes as they were |
| `ParameterCommit.ModeAgreesIff` | camera/QCamera2/HAL/QCameraParameters.cpp:6130-6146 | for ZSL and the recording hint an accepted commit leaves the mode equal to what the backend accepted exactly when the batch carries the mode or the pending mode is the one accepted before, whether they agreed until then or not |
| `ParameterCommit.ZslDivergesAfterRefusal` | camera/QCamera2/HAL/QCameraParameters.cpp:2532-2560 | the failing case: after a refused batch, an unrelated commit makes the HAL believe in a ZSL mode the backend never saw |
| `ParameterCommit.HintDivergesAfterRefusal` | camera/QCamera2/HAL/QCameraParameters.cpp:5047-5062 | the same of the recording hint, whose string goes with the refused batch |
| `ParameterCommit.ZslStringAgreesIff` | camera/QCamera2/HAL/QCameraParameters.cpp:2543-2544 | the committed string names the mode the backend accepted exactly when the pending mode is that one; while HAL and backend agree, exactly when no change is pending |
| `Parameters.Backend.TakeOver` | camera/QCamera2/stack/common/cam_intf.h:388-407 | a backend that walks the links takes over exactly the batch, entry by entry |
| `Parameters.QCameraParameters.SetEnumFromUser` | camera/QCamera2/HAL/QCameraParameters.cpp:1480-1491 | one step of the run, whose effect is that of `RunHolds`: a name equal to the committed one is not staged, and exactly a different unknown one is refused with BAD_VALUE |
| `Parameters.QCameraParameters.SetZslMode` | camera/QCamera2/HAL/QCameraParameters.cpp:2532-2560 | one step of the run, whose effect is that of `RunModes`: the string goes straight into the committed map; exactly an unknown name that differs is BAD_VALUE |
| `Parameters.QCameraParameters.SetRecordingHint` | camera/QCamera2/HAL/QCameraParameters.cpp:2469-2489 | one step of the run for the recording hint, likewise |
| `Parameters.QCameraParameters.CommitParamChanges` | camera/QCamera2/HAL/QCameraParameters.cpp:6130-6146 | an accepted commit merges the staged strings and takes over both pending modes |
| `Parameters.QCameraParameters.CommitSetBatch` | camera/QCamera2/HAL/QCameraParameters.cpp:6067-6078 | the commit of the run: nothing changes unless the backend accepts |
| `Queues.QCameraQueue.Enqueue` | camera/QCamera2/util/QCameraQueue.cpp:139-163 | the value joins the tail, or is refused when the queue is inactive |
| `Queues.QCameraQueue.EnqueueWithPriority` | camera/QCamera2/util/QCameraQueue.cpp:176-206 | the value joins the head, or is refused when the queue is inactive |
| `Queues.QCameraQueue.Dequeue` | camera/QCamera2/util/QCameraQueue.cpp:219-248 | the value at the asked-for end leaves the queue |
| `Queues.QCameraQueue.Flush` | camera/QCamera2/util/QCameraQueue.cpp:260-289 | everything in the queue is released in order and the queue becomes inactive |
| `Queues.QCameraQueue.FlushNodes` | camera/QCamera2/util/QCameraQueue.cpp:302-334 | exactly the matching nodes are released, in order, and the others stay in order |
| `Queues.MatchingSplits` | camera/QCamera2/util/QCameraQueue.cpp:302-334 | matching and non-matching nodes together are the old ones, each as often as before |
| `Queues.MatchingJoins` | camera/QCamera2/util/QCameraQueue.cpp:302-334 | matching goes through a queue from head to tail |
| `PipelineFrames.StepConserves` | camera/QCamera2/HAL/QCameraPostProc.cpp:467-513 | each call, event, result and command accounts for every frame it had or was given: kept, released, passed on or dropped |
| `PipelineFrames.RunConserves` | camera/QCamera2/HAL/QCameraPostProc.cpp:1244-1403 | over any run each frame handed in is held, released, passed on or dropped, once for each time it came in |
| `PipelineFrames.OnePlace` | camera/QCamera2/HAL/QCameraPostProc.cpp:835-852 | a frame handed in once is in exactly one place, is released at most once, and is held nowhere once released |
| `PipelineFrames.NothingLostIff` | camera/QCamera2/HAL/QCameraPostProc.cpp:467-493 | nothing is ever unaccounted for exactly when every event is safe: no frame is handed in after a STOP was taken up, jobs can be allocated, results answer a request, and raw frames are passed on or refused with an error |
| `PipelineFrames.ActiveUntilStop` | camera/QCamera2/util/QCameraQueue.cpp:260-289 | the queues are active exactly until the worker first takes up a STOP |
| `PipelineFrames.StopReleasesAll` | camera/QCamera2/HAL/QCameraPostProc.cpp:1244-1300 | processing STOP releases and frees every frame of the five queues exactly as often as it was held |
| `PipelineFrames.StopKills` | camera/QCamera2/HAL/QCameraPostProc.cpp:1244-1300 | after STOP no frame is held, and the four input queues are inactive |
| `PipelineFrames.DeadForGood` | camera/QCamera2/util/QCameraQueue.cpp:260-289 | after a first STOP every frame handed in, in this or any later session, is dropped, because nothing activates the queues again |
| `PipelineFrames.SecondSessionLosesFrame` | camera/QCamera2/HAL/QCameraPostProc.cpp:1239-1248 | the shortest such run: stop, start again, and the next picture is lost |
| `PipelineEffects.ReprocessEffect` | camera/QCamera2/HAL/QCameraPostProc.cpp:1345-1383 | the head of the input goes to the end of the ongoing queue and to the backend exactly if a request can be allocated, there is a channel, and it accepts; otherwise both are as before and the frame is the last released |
| `PipelineEffects.OngoingIsAccepted` | camera/QCamera2/HAL/QCameraPostProc.cpp:1345-1383 | over every run the ongoing queue holds the last of the frames that were submitted and accepted, in the order of submission, and no other |
| `PipelineEffects.RefusedIsReleased` | camera/QCamera2/HAL/QCameraPostProc.cpp:1369-1383 | over every run each frame submitted and refused has been released as often as it was |
| `PipelineEffects.JpegEffect` | camera/QCamera2/HAL/QCameraPostProc.cpp:1302-1328 | an idle encoder gets the head of the input under its id if it starts; the session is renewed only if one is needed, also if the job then does not start |
| `PipelineEffects.RawEffect` | camera/QCamera2/HAL/QCameraPostProc.cpp:1330-1343 | the head of the raw input leaves it and is handed on exactly if it is passed on |
| `PipelineEffects.ReleaseEffect` | camera/QCamera2/HAL/QCameraPostProc.cpp:1302-1383 | one turn releases the frames of a job that does not start, a raw frame in error and a refused frame, in this order, and nothing else |
| `PipelineEffects.IdleEffect` | camera/QCamera2/HAL/QCameraPostProc.cpp:1384-1403 | while inactive a command gives back one buffer of each kind |
| `PipelineEffects.StopEffect` | camera/QCamera2/HAL/QCameraPostProc.cpp:1244-1300 | STOP aborts exactly the ongoing jobs, ends the session and the channel, and releases all queues in the order of the source |
| `PipelineEffects.ResultEffect` | camera/QCamera2/HAL/QCameraPostProc.cpp:628-665 | a result joins the oldest request as a JPEG job, or goes raw and releases the frame of the request |
| `PipelineEffects.JpegEventEffect` | camera/QCamera2/HAL/QCameraPostProc.cpp:532-609 | the end of a job takes it from encoder and queue, releases its frames and wakes the worker |
| `PipelineEffects.DataEffect` | camera/QCamera2/HAL/QCameraPostProc.cpp:467-493 | a frame to be reprocessed, an NV16 frame and any other join three different queues; the worker is woken once, but twice for NV16 |
| `PipelineProtocol.NoLostWakeUp` | camera/QCamera2/HAL/QCameraPostProc.cpp:487-490 | in every run without such a refusal, an active worker with a waiting job and an idle encoder has a DO_NEXT_JOB pending |
| `PipelineProtocol.AlwaysWakeOkIff` | camera/QCamera2/HAL/QCameraPostProc.cpp:1302-1328 | throughout a run an active worker with a waiting job and an idle encoder has a DO_NEXT_JOB pending exactly if the encoder never refuses a job while others wait and no command is on its way |
| `PipelineProtocol.StallHappens` | camera/QCamera2/HAL/QCameraPostProc.cpp:1319-1326 | the refusal does stall: a run of three pictures that ends with a waiting job, an idle encoder and no command |
| `PipelineProtocol.RunOneJob` | camera/QCamera2/HAL/QCameraPostProc.cpp:1307-1328 | in every run at most one JPEG job is ongoing, and it is the only one the encoder knows |
| `PipelineProtocol.EventFindsItsJob` | camera/QCamera2/HAL/QCameraPostProc.cpp:681-692 | the head of the ongoing queue is the job any encoder event is about |
| `PipelineProtocol.PairedRun` | camera/QCamera2/HAL/QCameraPostProc.cpp:1345-1383 | in every run without such a restart each JPEG job joins a reprocessed frame with the frame it was made from; that refused requests leave no trace in this pairing is `ReprocessEffect` and `OngoingIsAccepted` |
| `PipelinePairing.RunMirrors` | camera/QCamera2/HAL/QCameraPostProc.cpp:1345-1383 | over every run the backend answers for the tail of the ongoing queue, which has frames in front of it exactly while a replaced channel is owing |
| `PipelinePairing.JoinsRightIff` | camera/QCamera2/HAL/QCameraPostProc.cpp:628-659 | a reprocessed frame is joined with the frame it was made from exactly when no frame waits for the answers of a channel that was replaced, with no STOP taken up since |
| `PipelinePairing.AllJoinedRightIff` | camera/QCamera2/HAL/QCameraPostProc.cpp:628-659 | every job of a run joins a frame with its own source exactly when none is built while such a frame waits |
| `PipelineProtocol.RestartBreaksPairing` | camera/QCamera2/HAL/QCameraPostProc.cpp:167-217 | such a restart does join the source of one frame with the result of another |
| `PostProc.QCameraPostProcessor.Start` | camera/QCamera2/HAL/QCameraPostProc.cpp:167-217 | the start() step, with a failing reprocess channel as an error |
| `PostProc.QCameraPostProcessor.ProcessData` | camera/QCamera2/HAL/QCameraPostProc.cpp:467-493 | the processData step: reprocess, raw or JPEG path, NO_MEMORY when no job can be allocated |
| `PostProc.QCameraPostProcessor.ProcessPPData` | camera/QCamera2/HAL/QCameraPostProc.cpp:628-665 | the reprocess-result step, with BAD_VALUE when no request is outstanding |
| `PostProc.QCameraPostProcessor.ProcessJpegEvt` | camera/QCamera2/HAL/QCameraPostProc.cpp:532-609 | the encoder-event step: the head job is released and the worker woken |
| `PostProc.QCameraPostProcessor.FindJpegJobByJobId` | camera/QCamera2/HAL/QCameraPostProc.cpp:681-692 | job id 0 finds nothing; any other takes the head of the ongoing queue |
| `PostProc.QCameraPostProcessor.EncodeData` | camera/QCamera2/HAL/QCameraPostProc.cpp:924-1119 | whether a job starts, and with which session, follows from what is found for it: nothing changes if something is missing, the session is made once, before the job is refused or started |
| `EncodeInput.Gather` | camera/QCamera2/HAL/QCameraPostProc.cpp:924-1119 | the last snapshot and preview buffers, the first metadata buffer, and the outcome, in the order in which things can be missing |
| `EncodeInput.OutcomeIff` | camera/QCamera2/HAL/QCameraPostProc.cpp:924-1119 | a job is not ready exactly if channel, encoder, needed session or snapshot buffer is missing or the last such buffer has no memory; a ready one starts exactly if the encoder takes it |
| `PostProc.QCameraPostProcessor.EncodeJob` | camera/QCamera2/HAL/QCameraPostProc.cpp:1307-1328 | the ongoing queue then holds the job with its id, or is empty and the frames of the job are released |
| `PostProc.QCameraPostProcessor.DoJpeg` | camera/QCamera2/HAL/QCameraPostProc.cpp:1302-1328 | one job goes from the input to the ongoing queue if the encoder is idle, and is released if it is refused |
| `PostProc.QCameraPostProcessor.DoReprocess` | camera/QCamera2/HAL/QCameraPostProc.cpp:1345-1383 | the reprocess phase of the step, whose effect is that of `ReprocessEffect`: a refused request is taken back from the tail and its frame released |
| `PostProc.QCameraPostProcessor.AbortOngoing` | camera/QCamera2/HAL/QCameraPostProc.cpp:1244-1300 | every ongoing job is aborted and its frames released, in order |
| `PostProc.QCameraPostProcessor.FlushQueues` | camera/QCamera2/HAL/QCameraPostProc.cpp:1244-1300 | the four other queues are flushed and what they held is released, in order |
| `PostProc.QCameraPostProcessor.DataProcessStep` | camera/QCamera2/HAL/QCameraPostProc.cpp:1216-1415 | one turn of the worker loop is one step of the run, for each command and both states |
| `PreviewOwnership.FrameKeeps` | camera/QCamera2/HAL/QCameraMem.cpp:974-1010 | a frame keeps every buffer with exactly one of driver, HAL and window, mLocalFlag is set iff the window does not have it, and the not-owned guard does not fire |
| `PreviewOwnership.RunConsistent` | camera/QCamera2/HAL/QCamera2HWICallbacks.cpp:245-298 | over any run of frames, answers of the window and stream stops the same holds |
| `PreviewOwnership.FrameLeavesNothingIff` | camera/QCamera2/HAL/QCamera2HWICallbacks.cpp:272-298 | a frame leaves the buffers with the HAL as they were exactly when neither the window nor the stream refuses one, be it the frame itself or the older buffer |
| `PreviewOwnership.ShownFrameMoves` | camera/QCamera2/HAL/QCamera2HWICallbacks.cpp:287-298 | while the preview runs, the frame goes to the window if the window takes it, the buffer the window gives leaves it and goes to the driver if the stream takes it, and no other buffer moves |
| `PreviewOwnership.UnshownFrameMoves` | camera/QCamera2/HAL/QCamera2HWICallbacks.cpp:272-277 | while it does not run, the window is untouched and the frame goes straight back if the stream takes it |
| `PreviewOwnership.FrameIsShown` | camera/QCamera2/HAL/QCamera2HWICallbacks.cpp:287-297 | two buffers and no refusal: frame 1 is shown and buffer 0 goes to the driver |
| `PreviewOwnership.HalKeeps` | camera/QCamera2/HAL/QCamera2HWICallbacks.cpp:272-298 | a buffer that is with the HAL stays there over every run |
| `PreviewOwnership.HalUnchangedIff` | camera/QCamera2/HAL/QCamera2HWICallbacks.cpp:245-298 | over every run the HAL ends up with the buffers it began with exactly when every frame is given on, and the stream is stopped only with none left in the driver |
| `PreviewOwnership.OlderBufferStays` | camera/QCamera2/HAL/QCamera2HWICallbacks.cpp:290-297 | the failing case in which the stream refuses the buffer that came back from the window |
| `PreviewOwnership.RefusedFrameStays` | camera/QCamera2/HAL/QCamera2HWICallbacks.cpp:288-291 | the failing case in which the window refuses the frame |
| `PreviewOwnership.AllocatedConsistent` | camera/QCamera2/HAL/QCameraMem.cpp:1172-1178 | after allocation the three parties agree, and getRegFlags says who has what |
| `PreviewOwnership.AllocatedIs` | camera/QCamera2/HAL/QCameraMem.cpp:1172-1178 | the first buffers, as many as the minimum, are with the window and the others with the driver |
| `PreviewOwnership.TeardownReturnsAll` | camera/QCamera2/HAL/QCameraMem.cpp:1194-1221 | after any run deallocation cancels each buffer that the window does not have once, and no other |
| `Gralloc.QCameraGrallocMemory.Allocate` | camera/QCamera2/HAL/QCameraMem.cpp:1025-1183 | all buffers are taken and the minimum handed back, or every buffer taken is cancelled but for the one an ION failure forgets; so a failure leaves the window as it was exactly unless it is in ION; a buffer taken behind the tables of 64 is reported |
| `Gralloc.BufferForgotten` | camera/QCamera2/HAL/QCameraMem.cpp:1109-1129 | the failing case: one buffer and no ION, and then nobody has the buffer |
| `Gralloc.TablesOverrun` | camera/QCamera2/HAL/QCameraMem.cpp:1078-1083 | the failing case of the tables: of 65 buffers the last is taken behind them |
| `Gralloc.QCameraGrallocMemory.TakeBuffers` | camera/QCamera2/HAL/QCameraMem.cpp:1078-1172 | handles and flags of the buffers got so far, or all of them back but the one an ION failure forgets |
| `Gralloc.QCameraGrallocMemory.Rollback` | camera/QCamera2/HAL/QCameraMem.cpp:1095-1102 | the buffers taken before the failure are cancelled, once each and in order |
| `Gralloc.QCameraGrallocMemory.DisplayBuffer` | camera/QCamera2/HAL/QCameraMem.cpp:974-1010 | the buffer goes to the window and the index of the one that came back is returned, BAD_INDEX if none did, INVALID_OPERATION if the buffer was not owned |
| `Gralloc.QCameraGrallocMemory.Deallocate` | camera/QCamera2/HAL/QCameraMem.cpp:1194-1221 | the owned buffers are cancelled, in order and no others, and the table is emptied; without a window none is |
| `Gralloc.QCameraGrallocMemory.GetRegFlags` | camera/QCamera2/HAL/QCameraMem.cpp:1255-1263 | flags are 0 below the minimum and 1 from there on |
| `Gralloc.PreviewStream.BufDone` | camera/QCamera2/HAL/QCameraStream.cpp:495-507 | an index in range goes to the driver unless it is refused, one beyond the end is BAD_INDEX |
| `Gralloc.PreviewStream.PreviewStreamCb` | camera/QCamera2/HAL/QCamera2HWICallbacks.cpp:245-298 | the whole callback is the frame step of the ownership protocol, whose effect is that of `ShownFrameMoves` and `UnshownFrameMoves` |
| `SnapshotCount.DoneEventsExact` | camera/QCamera2/HAL/QCamera2HWICallbacks.cpp:1041-1189 | at every point of every run the number of SNAPSHOT_DONE events since START is the number the snapshots counted call for; `CountsPassed` says which are counted |
| `SnapshotCount.CountsPassed` | camera/QCamera2/HAL/QCamera2HWICallbacks.cpp:1041-1189 | over every run the session, the number expected and the snapshots counted are those told by the run: commands taken up since the last START or STOP, with a snapshot at the head of the queue, its message enabled and a data callback set |
| `SnapshotCount.DoneIsCalledFor` | camera/QCamera2/HAL/QCamera2HWICallbacks.cpp:1136-1146 | so SNAPSHOT_DONE has been sent as often as the snapshots passed on since START call for |
| `SnapshotCount.DataIsNotCounted` | camera/QCamera2/HAL/QCamera2HWICallbacks.cpp:1092-1134 | a notification of any other kind is passed on without being counted |
| `SnapshotCount.DeliverEffect` | camera/QCamera2/HAL/QCamera2HWICallbacks.cpp:1163-1170 | a notification taken off the queue has its release callback run once, whatever becomes of it |
| `SnapshotCount.StopEffect` | camera/QCamera2/HAL/QCamera2HWICallbacks.cpp:1072-1080 | STOP flushes the notifications about snapshots and only those, and runs their release callbacks, all in order |
| `SnapshotCount.DoneOnceIff` | camera/QCamera2/HAL/QCamera2HWICallbacks.cpp:1136-1146 | SNAPSHOT_DONE comes at most once exactly until 2^32 snapshots more than expected were delivered, and at least once exactly when the positive expected number is reached |
| `SnapshotCount.DoneTwice` | camera/QCamera2/HAL/QCamera2HWICallbacks.cpp:1136-1146 | the failing case: with one snapshot expected, the 2^32 + 1st brings a second SNAPSHOT_DONE |
| `SnapshotCount.ReleasedOnce` | camera/QCamera2/HAL/QCamera2HWICallbacks.cpp:993-1189 | every notification taken over is still queued or has had its release callback run exactly once |
| `Notifier.QCameraCbNotifier.NotifyCallback` | camera/QCamera2/HAL/QCamera2HWICallbacks.cpp:1203-1222 | the notification is queued and the worker woken, or it is refused |
| `Notifier.QCameraCbNotifier.StartSnapshots` | camera/QCamera2/HAL/QCamera2HWICallbacks.cpp:1270-1273 | the START goes to the head of the commands |
| `Notifier.QCameraCbNotifier.StopSnapshots` | camera/QCamera2/HAL/QCamera2HWICallbacks.cpp:1284-1287 | the STOP goes to the head of the commands |
| `Notifier.QCameraCbNotifier.CbNotifyStep` | camera/QCamera2/HAL/QCamera2HWICallbacks.cpp:1041-1189 | one turn of the notifier loop is one step of the run, whose effect is that of `CountsPassed`, `DeliverEffect` and `StopEffect` |
| `SizeLists.StrToLOfDec` | camera/QCamera2/HAL/QCameraParameters.cpp:3377-3403 | strtol reads back what %d printed for every 32-bit number, and stops right behind it |
| `SizeLists.StrToLReads` | camera/QCamera2/HAL/QCameraParameters.cpp:3377-3403 | strtol reads any numeral, with blanks, a sign and leading zeros, to the nearest number of 32 bits, and stops behind it |
| `SizeLists.SpoiltSizeIsLost` | camera/QCamera2/HAL/QCameraParameters.cpp:3416-3439 | a foreign character behind the last size loses that size and keeps those before it |
| `SizeLists.PairOfText` | camera/QCamera2/HAL/QCameraParameters.cpp:3377-3403 | parse_pair reads back one printed size |
| `SizeLists.RoundTrip` | camera/QCamera2/HAL/QCameraParameters.cpp:3416-3439 | parsing a printed non-empty list gives the list, in order |
| `SizeLists.RoundTripIff` | camera/QCamera2/HAL/QCameraParameters.cpp:3416-3439 | it does so exactly when the list is not empty; the empty text gives one size that was never set |
| `SizeLists.TextFits` | camera/QCamera2/HAL/QCameraParameters.cpp:802-820 | every printed size fits the buffer of 32 characters, so none is cut off |
| `SizeLists.CreateHfrSizesString` | camera/QCamera2/HAL/QCameraParameters.cpp:802-820 | the printing loop yields the text of the list |
| `SizeLists.ParsePairAt` | camera/QCamera2/HAL/QCameraParameters.cpp:3377-3403 | on failure neither the numbers nor the end pointer are set |
| `SizeLists.ParseSizesList` | camera/QCamera2/HAL/QCameraParameters.cpp:3416-3439 | the parsing loop terminates on every text and collects the sizes |
| `AreaText.NumbersRoundTrip` | camera/QCamera2/HAL/QCameraParameters.cpp:5780-5805 | numbers written with commas between them are read back |
| `AreaText.AreasRoundTripIff` | camera/QCamera2/HAL/QCameraParameters.cpp:5824-5876 | a list of areas written out is read back exactly when each fits the buffer of 32 characters and there are not too many |
| `AreaText.ReadIff` | camera/QCamera2/HAL/QCameraParameters.cpp:5824-5876 | whatever the text, it is read exactly when it is one or more good groups, not too many |
| `AreaText.SpacedRoundTrip` | camera/QCamera2/HAL/QCameraParameters.cpp:5780-5805 | numbers written with blanks behind the commas are read back |
| `AreaText.AreaTextIs` | camera/QCamera2/HAL/QCameraParameters.cpp:5824-5876 | the numbers of a group are left, top, right, bottom and weight |
| `AreaText.OverrunIff` | camera/QCamera2/HAL/QCameraParameters.cpp:5843-5850 | whatever the text, it is copied beyond the buffer exactly when one of its groups has 32 characters or more, comes no later than the first one too many, and follows good ones only |
| `AreaText.FourDigitsShort` | camera/QCamera2/HAL/QCameraParameters.cpp:5829-5829 | every area in range fits that buffer |
| `AreaText.LongAreaOverruns` | camera/QCamera2/HAL/QCameraParameters.cpp:5846-5850 | the failing case: a group of 33 characters is copied beyond the buffer |
| `AreaText.ParseNDimVector` | camera/QCamera2/HAL/QCameraParameters.cpp:5780-5805 | five numbers with commas between them, or a refusal |
| `AreaText.ParseCameraAreaString` | camera/QCamera2/HAL/QCameraParameters.cpp:5824-5876 | the loop reads one area after the other, up to the first that is ill-formed, too long or too many |
| `Areas.AcceptedInRangeIff` | camera/QCamera2/HAL/QCameraParameters.cpp:5885-5929 | an accepted area lies in the square from -1000 to 1000 exactly when its corners were written in order |
| `Areas.InRangeAccepted` | camera/QCamera2/HAL/QCameraParameters.cpp:5885-5929 | an area in range is accepted exactly when its weight is from 1 to 1000 |
| `Areas.AcceptedOutOfRange` | camera/QCamera2/HAL/QCameraParameters.cpp:5860-5864 | the sizes wrap: an area reaching far out of range is accepted |
| `Areas.SideInPreview` | camera/QCamera2/HAL/QCameraParameters.cpp:4299-4315 | whatever the preview size, the two truncations never carry a side out of the preview; the length is exact exactly when the product of ints does not overflow |
| `Areas.CentreInPreview` | camera/QCamera2/HAL/QCameraParameters.cpp:4382-4396 | the metering centre of an area in range is a pixel of the preview, not left of the scaled start |
| `Areas.FocusRoiIs` | camera/QCamera2/HAL/QCameraParameters.cpp:4310-4313 | each coordinate moved by 1000 and scaled, the left and the width with the width of the preview, the top and the height with its height, is met from below by less than a pixel |
| `Areas.MeteringPointIs` | camera/QCamera2/HAL/QCameraParameters.cpp:4382-4396 | the same of the middle of each side for the metering point |
| `Areas.CornersAre` | camera/QCamera2/HAL/QCameraParameters.cpp:5860-5864 | corners in range come back from position and size |
| `Areas.ResolvedIs` | camera/QCamera2/HAL/QCameraParameters.cpp:5885-5929 | areas written in order are staged exactly if all are in range with weights from 1 to 1000, refused otherwise; five zeros alone stand for none |
| `Areas.LengthsFitIff` | camera/QCamera2/HAL/QCameraParameters.cpp:4312-4313 | every length from 1 to 2000 is scaled to a length exactly at the preview sizes at which 2000 times the size fits an int |
| `Areas.LengthOverflows` | camera/QCamera2/HAL/QCameraParameters.cpp:4312-4313 | the failing case: at a preview size of 1,073,742 the longest side becomes negative |
| `Areas.StagedInPreviewIff` | camera/QCamera2/HAL/QCameraParameters.cpp:4310-4313 | all areas written in order are focused on inside the preview, with sides that are not negative, exactly at the preview sizes at which no length overflows |
| `Areas.StagedMetering` | camera/QCamera2/HAL/QCameraParameters.cpp:4382-4396 | every metering centre staged from areas written in order is a pixel of the preview, whatever its size |
| `Areas.ValidComesThrough` | camera/QCamera2/HAL/QCameraParameters.cpp:4256-4290 | areas in range, written out as text, are read, accepted and staged whole |
| `Areas.ReadAreas` | camera/QCamera2/HAL/QCameraParameters.cpp:4256-4290 | unsupported, refused, overrun, or the areas of the text; the default area stands for none |
| `Areas.ValidateCameraAreas` | camera/QCamera2/HAL/QCameraParameters.cpp:5885-5929 | the checking loop accepts exactly the default area alone or areas that all pass |
| `Areas.SetFocusAreas` | camera/QCamera2/HAL/QCameraParameters.cpp:4256-4320 | refused, or one scaled rectangle, the one `FocusRoiIs` describes, and weight for each area of the text |
| `Areas.SetMeteringAreas` | camera/QCamera2/HAL/QCameraParameters.cpp:4335-4404 | refused, or one scaled centre, the one `MeteringPointIs` describes, for each area of the text |
| `Gps.SplitApproximates` | camera/QCamera2/HAL/QCameraParameters.cpp:5201-5218 | minutes and seconds are in [0,60) and the triple is below the coordinate by less than 1/36,000,000 degree |
| `Gps.SplitIff` | camera/QCamera2/HAL/QCameraParameters.cpp:5201-5218 | the triple computed is the only proper one that does so |
| `Gps.SplitRoundTrip` | camera/QCamera2/HAL/QCameraParameters.cpp:5201-5218 | a coordinate made from degrees, minutes and seconds, of either sign, comes back unchanged |
| `Gps.RatsValue` | camera/QCamera2/HAL/QCameraParameters.cpp:5268-5277 | the three rationals stand for the value of the triple |
| `Gps.ParseGPSCoordinate` | camera/QCamera2/HAL/QCameraParameters.cpp:5201-5218 | the array receives the rationals of that triple; no array is BAD_VALUE |
| `Channel.FindsItsOwn` | camera/QCamera2/HAL/QCameraChannel.cpp:705-717 | after success every source stream that is not metadata finds the reprocess stream built from it, and a metadata stream finds none |
| `Channel.FindsByHandle` | camera/QCamera2/HAL/QCameraChannel.cpp:705-717 | the same for any handle whatever, known or not |
| `Channel.BuiltFrom` | camera/QCamera2/HAL/QCameraChannel.cpp:616-693 | every stream added and handle noted is for a source that is not metadata, even if the call fails half-way |
| `Channel.BuiltAt` | camera/QCamera2/HAL/QCameraChannel.cpp:616-693 | the stream of each source is in its place, with format, size, rotation and features taken over |
| `Channel.ReprocStreamIs` | camera/QCamera2/HAL/QCameraChannel.cpp:655-672 | a reprocess stream has the format of its source, its dimensions turned exactly for a rotation by 90 or 270 degrees, and every feature asked for but CAC, which only snapshots keep |
| `Channel.OutcomeIs` | camera/QCamera2/HAL/QCameraChannel.cpp:629-692 | the outcome is that of the first stream for which memory or room is missing or whose start fails; 0 exactly if all are made |
| `Channel.OverrunIff` | camera/QCamera2/HAL/QCameraChannel.cpp:675-685 | the handle table is overrun exactly when the source has more streams to reprocess than there is room for, and nothing fails before |
| `Channel.OverrunHappens` | camera/QCamera2/HAL/QCameraChannel.cpp:675-685 | the failing case: a full channel asked to reprocess one stream more |
| `Channel.FindBehindZeros` | camera/QCamera2/HAL/QCameraChannel.cpp:627-627 | clearing the table hides the streams added before, except under handle 0 |
| `Channel.OneRequestEach` | camera/QCamera2/HAL/QCameraChannel.cpp:731-785 | a frame makes exactly one request for each buffer of a reprocessed stream |
| `Channel.RoutesBuffer` | camera/QCamera2/HAL/QCameraChannel.cpp:731-785 | each request goes, in the order of the buffers, to the stream built from the one its buffer is of, with the metadata of the frame |
| `Channel.MetaIsFirst` | camera/QCamera2/HAL/QCameraChannel.cpp:743-755 | the metadata sent along is that of the first buffer of a metadata stream, none exactly if there is none |
| `Channel.RefusedBehindAccepted` | camera/QCamera2/HAL/QCameraChannel.cpp:757-782 | when a frame is refused, the requests for its earlier buffers were accepted: there are some exactly if an earlier buffer goes to a reprocess stream |
| `Channel.QCameraChannel.AddStream` | camera/QCamera2/HAL/QCameraChannel.cpp:156-187 | a stream is appended, or nothing changes and the error is returned |
| `Channel.QCameraChannel.GetStreamByHandle` | camera/QCamera2/HAL/QCameraChannel.cpp:350-358 | the first stream with the handle, skipping missing ones |
| `Channel.QCameraReprocessChannel.AddReprocStreamsFromSource` | camera/QCamera2/HAL/QCameraChannel.cpp:616-693 | streams and handles grow in step up to the first failure; the source is noted only on success; a handle written behind the table is reported |
| `Channel.QCameraReprocessChannel.GetStreamBySourceHandle` | camera/QCamera2/HAL/QCameraChannel.cpp:705-717 | the first stream noted under the handle |
| `Channel.QCameraReprocessChannel.DoReprocess` | camera/QCamera2/HAL/QCameraChannel.cpp:731-785 | the requests made, up to and including the first that is refused; -1 without streams or source |
| `Channel.QCameraReprocessChannel.FindMeta` | camera/QCamera2/HAL/QCameraChannel.cpp:743-755 | the first metadata buffer of the frame |
| `StreamBuffers.QCameraStream.GetBufs` | camera/QCamera2/HAL/QCameraStream.cpp:553-645 | all or nothing: success exactly when everything is granted, and then exactly 0..mNumBufs-1 are mapped and defined; else the memory is gone and only refused unmappings stay |
| `StreamBuffers.QCameraStream.PutBufs` | camera/QCamera2/HAL/QCameraStream.cpp:657-673 | exactly the buffers of getBufs are unmapped, but for refusals; the pointer to the memory stays |
| `StreamBuffers.MapOps.UnmapFirst` | camera/QCamera2/HAL/QCameraStream.cpp:570-622 | all of the first n buffers are unmapped, heedless of refusals |
| `StreamBuffers.GetThenPut` | camera/QCamera2/HAL/QCameraStream.cpp:553-673 | after getBufs and putBufs the mapped buffers are those of before exactly when no unmapping was refused; the outcome of putBufs tells so exactly when none was, or the last; and a getBufs that failed left nothing mapped exactly when no unmapping of its roll-back was refused |
| `StreamBuffers.ReportedAsUnmapped` | camera/QCamera2/HAL/QCameraStream.cpp:657-673 | the failing case: putBufs reports success with buffer 0 still mapped |
| `StreamBuffers.StreamMemory.GetBufDef` | camera/QCamera2/HAL/QCameraMem.cpp:199-226 | each plane has its length, offset, start and the file descriptor the source gives it |
| `StreamBuffers.DefinitionIs` | camera/QCamera2/HAL/QCameraMem.cpp:199-226 | number, descriptor and frame length of the buffer; length and offset of each plane; each plane starts where the one before ends |
| `StreamBuffers.PlanesDisjoint` | camera/QCamera2/HAL/QCameraMem.cpp:199-226 | no plane reaches into a later one, and together they end within their total length |
| `StreamBuffers.OneFdIff` | camera/QCamera2/HAL/QCameraMem.cpp:199-226 | all planes refer to their own buffer exactly when there is one plane, or two and the buffer is number 1 |
| `StreamBuffers.OtherBuffersFd` | camera/QCamera2/HAL/QCameraMem.cpp:216-225 | the failing case: of two buffers with two planes, plane 1 of buffer 0 has the file descriptor of buffer 1 |
| `BdAddr.HexaToAscii` | bdAddrLoader/addrloader.c:71-87 | two upper-case hexadecimal digits for each byte, zero-terminated, nothing written behind |
| `BdAddr.PassLength` | bdAddrLoader/addrloader.c:114-120 | one pass stays in the buffer exactly when the text is neither too short to shift nor fills it, and makes it one longer and still zero-padded |
| `BdAddr.FormattedLength` | bdAddrLoader/addrloader.c:110-121 | the formatting stays in the buffer exactly for texts of ten to thirteen characters, and strlen grows by five |
| `BdAddr.NineCharacters` | bdAddrLoader/addrloader.c:114-119 | the failing case: nine characters are shifted out of the buffer in front |
| `BdAddr.NextSeparator` | bdAddrLoader/addrloader.c:116-119 | on twelve characters each pass puts exactly the next separator in its place |
| `BdAddr.FormattedTwelve` | bdAddrLoader/addrloader.c:110-121 | twelve characters end up with all five separators, zero-terminated |
| `BdAddr.FormattingBdAddr` | bdAddrLoader/addrloader.c:110-121 | the nested loops make the five passes, on any buffer, or the first that leaves it is reported |
| `BdAddr.FormattedSpells` | bdAddrLoader/addrloader.c:110-121 | twelve digits with the separators decode to the six bytes, with separators at 2, 5, 8, 11 and 14 |
| `BdAddr.SpellingUnique` | bdAddrLoader/addrloader.c:179-203 | a text spells at most one address |
| `BdAddr.PrintsText` | bdAddrLoader/addrloader.c:197-214 | a zero-padded text is printed as it is exactly if it is separated and has seventeen characters, with separators exactly if it has none and twelve, and otherwise not at all |
| `BdAddr.LoadedFile` | bdAddrLoader/addrloader.c:123-175 | a file of six bytes or more is loaded as its first six, as text its first eighteen |
| `BdAddr.LoadedProperty` | bdAddrLoader/addrloader.c:123-175 | a short property is loaded as bytes with zeros behind them, or as a text with zeros behind it |
| `BdAddr.LoadedBDAddr.ReadBDAddr` | bdAddrLoader/addrloader.c:123-175 | what lands in the union for each kind of source and data, or a failure |
| `BdAddr.LoadedBDAddr.WriteBDAddr` | bdAddrLoader/addrloader.c:177-217 | six bytes are printed as the text that spells them; a text is printed as it is or formatted; anything else fails |
| `BdAddr.LoadAndPrint` | bdAddrLoader/addrloader.c:226-287 | the whole program: which bytes or characters of a file or property are printed, spelled out or with colons, and which lengths are refused or leave the buffer |
| `Bootloader.ReadBootloader` | releasetools.py:164-188 | header, table and running position, with the error of the first thing that is wrong |
| `Bootloader.ParseIff` | releasetools.py:164-188 | a file is taken exactly if it has a header, the magic, the entries and the sum of sizes the header tells; otherwise the first that it lacks is the error |
| `Bootloader.InfoAt` | releasetools.py:176-188 | the k-th entry is the name and the size at byte 20 + 68 k |
| `Bootloader.HeaderIs` | releasetools.py:164-175 | magic, count, start offset and size are at bytes 0, 8, 12 and 16 |
| `Bootloader.ImagesTileRegion` | releasetools.py:216-216 | the slices concatenated are the bytes from start_offset to the sum of the sizes, even of a short file |
| `Bootloader.ImagesDisjoint` | releasetools.py:182-187 | places of different images do not overlap and follow the order of the table |
| `Bootloader.PlaceOf` | releasetools.py:182-188 | with distinct truncated names each image is found under its name |
| `Bootloader.PlacesHasOnlyImages` | releasetools.py:182-188 | nothing else is in the dictionary |
| `Bootloader.TruncToNull` | releasetools.py:234-238 | the longest prefix without a NUL |
| `Bootloader.U32RoundTrip` | releasetools.py:167-170 | a 32-bit number survives little-endian packing |
| `Bootloader.UnpackPacked` | releasetools.py:136-150 | splitting a file packed in the documented format gives back every image byte for byte, and no other |
| `UpdatePackage.SucceedsIff` | releasetools.py:164-219 | the call succeeds exactly when the file parses, /misc is known and no partition to flash lacks its image |
| `UpdatePackage.ErrorIs` | releasetools.py:164-219 | otherwise the error is that of the file, the want of /misc, or the first partition without its image, and the package holds what was written until then |
| `UpdatePackage.FlagFilesAre` | releasetools.py:190-193 | both flag files have 32 bytes: the words that say an update is under way with zeros behind them, and zeros |
| `UpdatePackage.PackedUpdate` | releasetools.py:208-219 | a packed file ends up, image by image, in the entries of the zip |
| `UpdatePackage.FlagUpWhileFlashing` | releasetools.py:194-223 | no partition is written before /misc holds the flag, and it holds it until the last one is |
| `UpdatePackage.FinishedScript` | releasetools.py:208-231 | at the end the flag is cleared and each partition and each backup reached holds its image |
| `UpdatePackage.ListsApart` | releasetools.py:160-162 | the partition lists never mix up mount points |
| `UpdatePackage.ScriptFilesPresentIff` | releasetools.py:225-231 | every file the script asks for is in the zip exactly when no backup is of a partition that was not flashed |
| `UpdatePackage.BackupWithoutOriginal` | releasetools.py:225-231 | a fstab for which one is missing |
| `UpdatePackage.DealtIs` | releasetools.py:209-219 | flashing stops at the first partition in the fstab that has no image |
| `UpdatePackage.BackedUpIs` | releasetools.py:225-231 | backing up stops at the first partition without a device |
| `UpdatePackage.Package.WriteBootloader` | releasetools.py:164-231 | zip and script grow by what the call writes, in the error cases too |
| `UpdatePackage.Package.Flash` | releasetools.py:209-219 | one entry and one line for each partition in the fstab, up to the first that has no image, which is the error |
| `UpdatePackage.Package.BackUp` | releasetools.py:225-231 | one line for each backup partition up to the first without a device, and no error |
| `Lights.LedShowsHighestWanted` | liblight/lights.c:54-55 | after any requests the LED shows the highest-priority light among those last asked to be lit, in its colour and timing, or is off |
| `Lights.RequestShown` | liblight/lights.c:130-242 | battery or notifications, asked for and nothing above them lit, show the colour without its alpha, with the times asked for exactly if it is to flash |
| `Lights.AttentionShown` | liblight/lights.c:245-270 | attention is shown at once unless it is not to flash, and is steady if it has no time off |
| `Lights.DarkShown` | liblight/lights.c:156-221 | a light asked for no colour is dark, whatever its alpha, and with no light left the LED is off |
| `Lights.StepShowsHighest` | liblight/lights.c:156-221 | one request keeps the LED and g_cur_led on the highest lit light |
| `Lights.LastRequestsDecide` | liblight/lights.c:156-270 | the state depends only on the last request of each light, not on their order |
| `Lights.PanelKeepsColour` | liblight/lights.c:130-153 | different colours or timings never look the same |
| `Lights.LightsDevice.WriteLedsLocked` | liblight/lights.c:130-153 | the eight writes leave the three channels showing one configuration |
| `Lights.LightsDevice.SetLightLocked` | liblight/lights.c:156-221 | a step of the multiplexer; a light out of range is refused with -EINVAL |
| `Lights.LightsDevice.SwitchToLower` | liblight/lights.c:203-216 | the downward search shows the highest lit light below, or turns the LED off |
| `Lights.LightsDevice.SetLight` | liblight/lights.c:223-270 | battery, notifications and attention requests, the last fixed up |

## Left out

- The HAL state machine, of which only the header is in the repository, and the handshake of API calls
  with it.
- HAL3, which has a post-processor and channels of its own, and the mm-camera and JPEG interface libraries.
- The power HAL, dumpstate, the thermal adapter, audio, key layouts: only easy claims.
- The dozens of setters that only differ in their key, id and table: one generic setting stands for
  them, any number of which can be registered.
- Settings that are not staged as one int32, among them the preview and picture sizes.
- The contents of buffers: what is found for a job is a parameter of the worker's step. The JPEG
  configuration, dimensions and crop, and notifications to the application, in `encodeData`; a
  session is a number.
- Raw and NV16 delivery beyond the queue and the hand-over to the notifier, frame dumping, FPS logging,
  faces and histograms.
- Failing allocations of nodes, commands and semaphores in the queue and command-thread code.
- A job of the post-processor is a value: that the queue and the encoder share it by pointer is modelled
  by taking it out and putting it back.
- ION, mmap and sysfs calls, and the error paths of heap and video memory; of the ION failures of the
  preview memory only what happens to the buffers is modelled.
- Rounding in single precision, in the areas, the GPS coordinates and elsewhere.
- Conversions of areas out of range, which are undefined in C.
- The text of a GPS coordinate, and its hemisphere.
- The five-area limit of the driver's structures (`MAX_ROI`) is taken to be kept by the capabilities.
- The bits of a stream's feature mask other than CAC and rotation, and offline reprocessing of a single
  buffer.
- What happens to a Bluetooth address once its formatting has left the buffer, and setting the property.
- The build fingerprint in `WriteBootloader`, whose lookup may fail; it chooses between two lists that
  are equal. Radio images and the other functions of `releasetools.py`.
- The backlight, which is one formula without state.
- PipelineFrames.StopReleasesAll: counts calls of `releaseSuperBuf`, not buffers queued back to a channel.
