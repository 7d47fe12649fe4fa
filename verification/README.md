# GPUMesh verification

Dafny models of the parts of GPUMesh that are state machines or codecs over unbounded inputs, with
proofs about every run of them. `dafny verify dfyconfig.toml` checks the whole project.

Code that changes things in place is a class or a loop here, proved against a function of its inputs or
of its old state; the theorems are about those functions, and about transition systems built from them.

| file | models | main theorems |
|---|---|---|
| `CudaOps`, `CudaSession`, `CudaBackend` | one CUDA remoting session on the host-memory backend | the in-place backend computes exactly `CudaSession.Step` |
| `CudaData` | device memory as a map from handle and position to byte | which operations succeed, which bytes they change, failed calls leave no trace |
| `CudaAccounting`, `CudaHandles`, `CudaEvents`, `CudaReplies` | byte budget, handle allocator, timing events and replies over whole runs | exact accounting, 64-byte gaps, freed handles stay dead, a tight bound on saturation |
| `Remoting`, `Transparency` | provider session table, client call, both over FIFO channels with other traffic | sessions are isolated; a remoted session behaves like a local one |
| `Bridge`, `BridgeAnswers` | any number of TCP connections sharing one client behind a mutex | linearisability, every request answered with the reply of its own operation, distinct handles, the lock is never stuck |
| `Chunks`, `Paths`, `PathRules`, `Upload`, `UploadCrash` | chunked transfer, path rules, resumable upload under crashes and torn writes | order independence, crash safety, recovery, copy there and back |
| `Frames` | the length-prefixed codec | fragmentation is invisible |
| `PackageNames`, `Archive` | the GPK1 archive | exactly when unpack undoes pack |
| `Slots`, `Scheduler`, `Relay`, `Permissions` | job slots, peer choice, relay matching, allow list | no slot leaks, best choice, one-shot matching, last operation decides |

## What the proofs found

For each of these there is a lemma with the exact condition under which the code does what one would
expect, and for most of them one with a concrete input or run on which it does not.

* The handle counter saturates. Up to `SAFE_MALLOCS` (a little over 2^35) allocations this cannot happen;
  with one more it can, and then two allocations share a handle, the first buffer is destroyed and part
  of the budget is lost (`CudaHandles.SafeBelowBound`, `CudaHandles.BoundIsTight`).
* An upload whose path ends in a slash or a dot, contains a NUL character, or clashes with the directories
  that exist, ends the session on every attempt (`Upload.ClashesArePermanent`); everywhere else at most two attempts are needed
  (`Upload.AttemptOutcome`, `Upload.TwoAttemptsSuffice`).
* A download whose connection closes early is reported as a success with a prefix of the file
  (`Chunks.DownloadIsPrefix`).
* A file name with two dots in it, such as `a..b`, can be packed but not unpacked, and one with a backslash
  moves into a subdirectory (`Archive.DirtyNames`). `PackageNames.CleanIff` says exactly which names come
  back where they were, and `Archive.ArchiveRoundTrip` exactly when all files do.
* The job cap bounds the jobs in flight on every run in which nobody cancels a running job and no job ends
  while another with its id is running (`Slots.CapBoundsJobs`). Any event that breaks this rule can be
  followed by submissions that exceed the cap (`Slots.DisorderBreaksCap`); the shortest such runs are
  `Slots.CancelOvercommits` and `Slots.SharedNameOvercommits`.
* The bonus for a preferred peer is worth exactly 39000 MB of free memory at worst
  (`Scheduler.PreferenceIsTight`). A score is the plain sum of its parts if and only if that is below 2^63
  (`Scheduler.ScoreIsSumIff`), and that is also when the preference can be relied on
  (`Scheduler.PreferenceIff`): beyond, a nameless idle peer without more free memory wins
  (`Scheduler.WrappedScoreLoses`).
* A configured budget of 2^44 MB or more can wrap to almost nothing; `Remoting.BudgetAsConfigured` has the
  exact condition.
* Upload and download rules map some paths to different files, such as `a\b` and `d/`
  (`Paths.ResolversDiffer`); `Paths.ResolversAgreeIff` says for exactly which ones they agree.
* After an abandoned call two requests can be outstanding (`Transparency.AbandoningLeavesTwo`,
  `Transparency.TwoOutstanding`); the bound that holds in every state is `Transparency.TransitBound`.

Two places where the code and its own comments differ; the models follow the code:

* The comment on the desktop list calls it separate from jobs (crates/gpumesh-security/src/lib.rs:341), but
  granting desktop access also grants jobs (lines 377-383): `Permissions.LastOperationDecides`.
* The archive format is described as a manifest length followed by the manifest
  (crates/gpumesh-storage/src/package.rs:27), but the length is cut to 32 bits: what was packed can be
  unpacked only if the manifest is shorter than 2^32 bytes (`Archive.UnpackOfPack`).

## Modelling choices

* `usize` is 64 bits wide. Lengths and file offsets are unbounded naturals; every operation of the source on
  `u64`, `u32` or `i64` values that saturates, wraps or truncates is written out.
* IEEE 754 addition, SHA-256 and the JSON reader and writer are function parameters. The only facts used
  about them are `Frames.Inverse` and `Archive.ReadsBack` (the reader undoes the writer, and for archives
  rejects a manifest cut off before its end) and `Upload.Faithful` (hashes of different data differ, and
  no hash is empty).
* Uploads work on files and directories: a file can be in the way of a directory and the other way round.
  In an unpacked tree the directories are those of its files.
* Clock readings, configuration, probe results, GPU lists and new session ids are inputs of each step.
  Elapsed event time stays in clock units.
* Error texts are datatype constructors that carry the values the text mentions.
* A run is a list of calls or events; "reachable" means after any list of enabled events.
* The remoting session's megabyte budget is multiplied with wrap-around, as in a release build.
* The bridge hands out the vector-addition operands from the fields `dst`, `src` and `ptr`, as the code does.

## Model

| member | source | states |
|---|---|---|
| CudaBackend.BackendSession.constructor | crates/gpumesh-core/src/cuda_backend.rs:55-95 | a new session is empty, with handles from 0x1000 and event ids from 1 |
| CudaBackend.BackendSession.CheckAlloc | crates/gpumesh-core/src/cuda_backend.rs:200-216 | refuses zero, over the buffer cap, over the session cap, in that order |
| CudaBackend.BackendSession.OpMalloc | crates/gpumesh-core/src/cuda_backend.rs:232-277 | the in-place allocation is the state change the allocator theorems are about |
| CudaBackend.BackendSession.OpFree | crates/gpumesh-core/src/cuda_backend.rs:279-304 | the in-place free is the state change the allocator theorems are about |
| CudaBackend.BackendSession.ReadBuf | crates/gpumesh-core/src/cuda_backend.rs:306-319 | returns the whole buffer, or the invalid-pointer error for a dead handle |
| CudaBackend.BackendSession.WriteBuf | crates/gpumesh-core/src/cuda_backend.rs:321-345 | replaces a buffer by one of the same length and touches no other; otherwise changes nothing |
| CudaBackend.BackendSession.BufLen | crates/gpumesh-core/src/cuda_backend.rs:347-360 | the length of a live buffer |
| CudaBackend.BackendSession.OpHtoD | crates/gpumesh-core/src/cuda_backend.rs:362-387 | cloning, editing and writing back a whole buffer overwrites just its first bytes |
| CudaBackend.BackendSession.OpDtoH | crates/gpumesh-core/src/cuda_backend.rs:389-413 | returns the first bytes of a live buffer, or the first applicable error |
| CudaBackend.BackendSession.OpDtoD | crates/gpumesh-core/src/cuda_backend.rs:415-422 | a read followed by a write, also when both handles are the same |
| CudaBackend.BackendSession.OpMemset | crates/gpumesh-core/src/cuda_backend.rs:424-447 | fills the first bytes of one buffer |
| CudaBackend.BackendSession.OpVectorAdd | crates/gpumesh-core/src/cuda_backend.rs:449-469 | checks the three handles in order, then writes the sums, whatever handles coincide |
| CudaBackend.BackendSession.AddWords | crates/gpumesh-core/src/cuda_backend.rs:539-561 | the in-place loop leaves the sum of the input words in each of the first n words, the rest as it was |
| CudaBackend.BackendSession.OpLoadPtx | crates/gpumesh-core/src/cuda_backend.rs:563-610 | on this backend a module never loads; a too large one is refused first |
| CudaBackend.BackendSession.OpLaunch | crates/gpumesh-core/src/cuda_backend.rs:612-706 | on this backend a kernel never runs; the order of the refusals |
| CudaBackend.BackendSession.Exec | crates/gpumesh-core/src/cuda_backend.rs:107-198 | all nineteen operations on the mutable fields refine one function from state and call to state and reply |
| CudaSession.Overwrite | crates/gpumesh-core/src/cuda_backend.rs:362-387 | a positional write keeps the length and every byte behind the data |
| CudaSession.UsableIff | crates/gpumesh-core/src/cuda_backend.rs:456-469 | the three length checks pass exactly if all three buffers are live and long enough |
| CudaSession.RunAppend | crates/gpumesh-core/src/cuda_backend.rs:107-198 | a run can be cut anywhere: state and replies compose |
| CudaSession.RepliesAt | crates/gpumesh-core/src/cuda_backend.rs:107-198 | the i-th reply depends only on the calls before it |
| CudaData.OkIffAccepted | crates/gpumesh-core/src/cuda_backend.rs:107-198 | a call succeeds if and only if a condition on handles, lengths and limits before it holds; an error is given exactly when it fails |
| CudaData.FailureIsAtomic | crates/gpumesh-core/src/cuda_backend.rs:107-198 | a failed call leaves buffers, budget, counters, events and device as they were, and returns no data |
| CudaData.RefusedCallsLeaveNoTrace | crates/gpumesh-core/src/cuda_backend.rs:107-198 | dropping all failed calls from any run gives the same final state, and every remaining call succeeds |
| CudaData.DeadHandleRefused | crates/gpumesh-core/src/cuda_backend.rs:306-319 | every operation that names a handle without a buffer fails |
| CudaData.BytesAfter | crates/gpumesh-core/src/cuda_backend.rs:362-469 | byte by byte, what every accepted operation leaves in every buffer, under any aliasing; lengths never change |
| CudaData.ReadBack | crates/gpumesh-core/src/cuda_backend.rs:362-413 | what was written is read back |
| CudaData.MallocGives | crates/gpumesh-core/src/cuda_backend.rs:232-277 | an accepted Malloc(n) gives a buffer of n zero bytes under the returned handle, keeps every other buffer and adds n to what is in use |
| CudaData.NewBufferWorks | crates/gpumesh-core/src/cuda_backend.rs:232-413 | a new buffer takes every write that fits it at once, and reads as zeros before |
| CudaData.FreeGivesBack | crates/gpumesh-core/src/cuda_backend.rs:279-304 | an accepted free removes just that buffer and gives its bytes back |
| CudaData.ReadReturnsBytes | crates/gpumesh-core/src/cuda_backend.rs:389-413 | an accepted read returns exactly the first bytes of the buffer |
| CudaData.OnlyMallocAndFreeReshape | crates/gpumesh-core/src/cuda_backend.rs:107-198 | all other operations keep the set of handles, all lengths, the budget and the handle counter |
| CudaData.CurrentDeviceValid | crates/gpumesh-core/src/cuda_backend.rs:125-136 | on every run that starts with a device the current device is one of them |
| CudaAccounting.RunInvariant | crates/gpumesh-core/src/cuda_backend.rs:200-304 | on every run, saturated or not: live bytes <= used <= budget, equal before saturation; buffers lie apart with gaps of 64 |
| CudaAccounting.StepKeepsInvariant | crates/gpumesh-core/src/cuda_backend.rs:107-198 | every operation keeps layout and accounting |
| CudaAccounting.MallocKeepsBudget | crates/gpumesh-core/src/cuda_backend.rs:232-277 | an allocation keeps the accounting, also when it reuses the saturated handle |
| CudaAccounting.FreeKeepsBudget | crates/gpumesh-core/src/cuda_backend.rs:279-304 | a free keeps the accounting |
| CudaAccounting.TotalFitsU64 | crates/gpumesh-core/src/cuda_backend.rs:232-277 | live bytes never exceed a u64, because every buffer but one has paid address space |
| CudaAccounting.ReportedFreeIsAllocatable | crates/gpumesh-core/src/cuda_backend.rs:137-147 | in every state, a non-zero size within the reported free bytes and the buffer cap can be allocated next |
| CudaAccounting.FreeingEverythingRestoresBudget | crates/gpumesh-core/src/cuda_backend.rs:279-304 | freeing all live buffers in any order succeeds and brings `used` back to zero |
| CudaHandles.CounterStep | crates/gpumesh-core/src/cuda_backend.rs:232-240 | only a successful allocation moves the counter or adds a handle |
| CudaHandles.HandlesIncrease | crates/gpumesh-core/src/cuda_backend.rs:232-240 | handles issued on any run increase strictly; only u64::MAX can repeat |
| CudaHandles.FreedHandleStaysDead | crates/gpumesh-core/src/cuda_backend.rs:279-304 | a freed handle below u64::MAX is never issued again and every later call naming it fails |
| CudaHandles.CounterAtMost | crates/gpumesh-core/src/cuda_backend.rs:232-240 | the counter grows by at most the buffer cap plus 64 per successful allocation |
| CudaHandles.SafeBelowBound | crates/gpumesh-core/src/cuda_backend.rs:232-277 | with at most SAFE_MALLOCS allocations: no saturation, exact accounting, all live buffers 64 bytes apart |
| CudaHandles.SafeMallocsAreMany | crates/gpumesh-core/src/cuda_backend.rs:236-240 | SAFE_MALLOCS is the largest number of maximal strides below saturation, and more than 2^35 |
| CudaHandles.BoundIsTight | crates/gpumesh-core/src/cuda_backend.rs:232-277 | for every session that can hold one maximal buffer, a run with one allocation more after which two allocations return one handle and a byte of budget is lost |
| CudaEvents.LastMarkHolds | crates/gpumesh-core/src/cuda_backend.rs:148-169 | an event holds the clock reading of the last call that created or recorded it |
| CudaEvents.ElapsedMeasures | crates/gpumesh-core/src/cuda_backend.rs:148-179 | on any run, elapsed time is the difference of the last marks of the two events, zero if negative |
| CudaEvents.DestroyedEventStaysDead | crates/gpumesh-core/src/cuda_backend.rs:148-179 | a destroyed event's id is never handed out again and every later use of it fails |
| CudaReplies.FirstReplies | crates/gpumesh-core/src/cuda_backend.rs:55-95 | the first handle is 0x1000, the first event 1, the first device 0 |
| CudaReplies.DeviceReplies | crates/gpumesh-core/src/cuda_backend.rs:110-136 | on every run, number, properties and choice of devices are answered from the list the session was opened with and the last successful SetDevice |
| CudaReplies.ReportedMemory | crates/gpumesh-core/src/cuda_backend.rs:137-147 | on every run, total is the memory of the device and free is what the live buffers leave of the budget, exactly so before saturation |
| CudaReplies.WhyMemoryRefused | crates/gpumesh-core/src/cuda_backend.rs:200-447 | for every memory operation, which reason a refusal gives, in order, with the limits as numbers |
| CudaReplies.WhyVectorRefused | crates/gpumesh-core/src/cuda_backend.rs:449-469 | the first of the three buffers that is dead or too short is the reason |
| CudaReplies.WhyOthersRefused | crates/gpumesh-core/src/cuda_backend.rs:148-706 | the reasons of refused event, module and kernel operations |
| CudaReplies.KernelNames | crates/gpumesh-core/src/cuda_backend.rs:612-650 | kernel names are made of ASCII letters, digits and underscores |
| Remoting.Provider.constructor | crates/gpumesh-core/src/remote.rs:324-329 | a connection starts without sessions |
| Remoting.Provider.Admit | crates/gpumesh-core/src/cuda_remote.rs:71-137 | the six reasons to refuse a session, in order |
| Remoting.OpenDecision | crates/gpumesh-core/src/cuda_remote.rs:64-162 | an offer is made if and only if all conditions hold; then one new empty session with the configured budget and the devices of the host, otherwise no change |
| Remoting.RefusalReason | crates/gpumesh-core/src/cuda_remote.rs:71-137 | which of the six reasons a refusal gives, each with its exact condition |
| Remoting.BudgetAsConfigured | crates/gpumesh-core/src/cuda_remote.rs:139-143 | the session budget is the configured one, capped, if and only if the product of megabytes and bytes does not wrap to below the cap |
| Remoting.Provider.Insert | crates/gpumesh-core/src/cuda_remote.rs:145-148 | adds one session; no two ids ever share a backend object |
| Remoting.Provider.HandleOpen | crates/gpumesh-core/src/cuda_remote.rs:64-162 | answers an open and leaves every existing session as it was |
| Remoting.Provider.HandleOp | crates/gpumesh-core/src/cuda_remote.rs:164-216 | runs the operation in place on the named backend object and on no other; unknown sessions are answered, not failed |
| Remoting.Provider.HandleClose | crates/gpumesh-core/src/cuda_remote.rs:218-224 | the session is gone, and every other one is the same object in the same state |
| Remoting.SessionsAreIsolated | crates/gpumesh-core/src/cuda_remote.rs:164-224 | whatever shares the connection, a session's state and answers are those of running its own operations alone |
| Remoting.ClosedStaysUnknown | crates/gpumesh-core/src/cuda_remote.rs:171-224 | in every list of messages, after a close of the session every operation on it is answered "unknown session", as long as none is opened under its id; the answers before stand |
| Remoting.CloseRemoves | crates/gpumesh-core/src/cuda_remote.rs:218-224 | a close removes the session, answers nothing and leaves every other session as it was |
| Remoting.MissingIsUnknown | crates/gpumesh-core/src/cuda_remote.rs:171-191 | a session that is not open stays so, and every operation on it is answered "unknown session" |
| Remoting.Connection.Send | crates/gpumesh-network/src/peer_conn.rs:55-60 | a sent message is appended to what was sent before |
| Remoting.Connection.Recv | crates/gpumesh-network/src/peer_conn.rs:62-72 | takes the oldest message, or sees the close |
| Remoting.Client.constructor | crates/gpumesh-core/src/cuda_remote.rs:265-273 | op ids start at 1 |
| Remoting.Client.CallRemote | crates/gpumesh-core/src/cuda_remote.rs:281-319 | sends one request with a new id, and the receive loop gives the outcome `AwaitFindsFirst` characterises |
| Remoting.AwaitFindsFirst | crates/gpumesh-core/src/cuda_remote.rs:290-318 | the loop stops at the first message that answers this call or is an error, skips all before it, and reads nothing behind it |
| Remoting.TakesItsOwn | crates/gpumesh-core/src/cuda_remote.rs:290-318 | a call takes the reply with its session and op id, field by field, or an Error message, and skips everything else |
| Transparency.RemotingIsTransparent | crates/gpumesh-core/src/cuda_remote.rs:281-319 | in every reachable state, the i-th call's result has the success, error, device count, device, handle and data of the i-th reply of a local session running the same operations, even if calls before it were abandoned |
| Transparency.RemoteReadReturnsBytes | crates/gpumesh-core/src/cuda_remote.rs:281-319 | a remote read brings the first bytes of the buffer as the operations before it left it, and fails exactly if there are not so many |
| Transparency.OneOutstanding | crates/gpumesh-core/src/cuda_remote.rs:281-319 | while no call was abandoned, exactly the unfinished call, if any, is in transit, and every finished call got a result |
| Transparency.TransitBound | crates/gpumesh-core/src/cuda_remote.rs:281-319 | in every reachable state, in transit are the unfinished call and the finished ones whose reply was not taken, at most one for every abandoned call |
| Transparency.AbandoningLeavesTwo | crates/gpumesh-core/src/cuda_remote.rs:281-319 | from every reachable state without an abandoned call and with a waiting one, giving it up and starting another leaves two requests in transit |
| Transparency.TwoOutstanding | crates/gpumesh-core/src/cuda_remote.rs:281-319 | the shortest run after which two requests are in transit |
| Transparency.CallCanFinish | crates/gpumesh-core/src/cuda_remote.rs:164-319 | from every reachable state with a waiting call, serving what was sent and reading what comes back finishes it |
| Transparency.StepKeepsInv | crates/gpumesh-core/src/remote.rs:357-373 | every send, service, receive and unrelated message keeps the protocol invariant |
| Transparency.ReachableInv | crates/gpumesh-core/src/cuda_remote.rs:164-319 | the protocol invariant holds in every reachable state |
| Bridge.BridgeIsLinearizable | crates/gpumesh-core/src/cuda_remote.rs:416-507 | for every interleaving, what each connection sees is its share of one sequential backend run in lock order |
| BridgeAnswers.StubIsUnderstood | crates/gpumesh-cudart-stub/src/lib.rs:78-236 | the bridge understands each of the seven requests of the runtime stub, for all operands and data, as the operation it was made for |
| BridgeAnswers.OnlySevenNames | crates/gpumesh-core/src/cuda_remote.rs:436-500 | exactly the seven names are understood, and absent fields count as zero or no data |
| BridgeAnswers.DataIsCutToBytes | crates/gpumesh-core/src/cuda_remote.rs:462-470 | data is taken number by number, cut to its low byte, and what is no number is skipped |
| BridgeAnswers.AnswerIsReply | crates/gpumesh-core/src/cuda_remote.rs:416-507 | what an application sees for an operation is the outcome of that operation in the one sequential run: its error, or its device count, handle or data |
| BridgeAnswers.ReadBringsBytes | crates/gpumesh-core/src/cuda_remote.rs:478-485 | a read through the bridge brings the bytes of the buffer, or an error exactly if there are not so many |
| BridgeAnswers.AnsweredInOrder | crates/gpumesh-core/src/cuda_remote.rs:416-507 | on every run, each connection gets one answer to each of its requests, in the order in which they came |
| BridgeAnswers.OtherNamesAreRefused | crates/gpumesh-core/src/cuda_remote.rs:500 | a request with any other name is answered "unknown op" without the backend |
| Bridge.GrantedHandlesDiffer | crates/gpumesh-core/src/cuda_remote.rs:442-448 | handles granted through the bridge increase in lock order |
| Bridge.NoHandleIsShared | crates/gpumesh-core/src/cuda_remote.rs:416-507 | any two successful allocations in the histories of the connections, of one or of two, have different handles |
| Bridge.LockNeverStuck | crates/gpumesh-core/src/cuda_remote.rs:436-502 | a free lock can be taken by any waiting connection; from every reachable state with a holder, serving and reading alone give the holder its answer and free the lock |
| Bridge.StepKeepsInv | crates/gpumesh-core/src/cuda_remote.rs:416-507 | every step of the bridge keeps order, ownership and histories consistent |
| Chunks.MergeChunk | crates/gpumesh-core/src/remote.rs:407-418 | the three-way merge puts the chunk at its offset, keeps all other bytes and fills a gap with zeros |
| Chunks.AnyOrderRebuilds | crates/gpumesh-core/src/remote.rs:407-418 | slices covering what a prefix leaves open rebuild the file, in any order, with overlaps and repeats |
| Chunks.ChunkAt | crates/gpumesh-core/src/remote.rs:282-305 | where each chunk starts and ends, and that exactly the last is marked |
| Chunks.ChunksCarryRest | crates/gpumesh-core/src/remote.rs:282-305 | the chunks carry exactly the data from the resume point, and there is always at least one |
| Chunks.ChunkSize | crates/gpumesh-core/src/remote.rs:282-305 | all chunks but the last have 256 KiB, the last no more, and only an empty rest makes an empty one |
| Chunks.SendUpload | crates/gpumesh-core/src/remote.rs:282-305 | the uploader's loop sends the transmission `ChunkAt` describes, also for an empty rest |
| Chunks.SendDownload | crates/gpumesh-core/src/remote.rs:726-748 | the provider's differently shaped loop sends the same transmission from offset 0 |
| Chunks.Collect | crates/gpumesh-core/src/remote.rs:193-219 | the download loop gathers data up to the marked chunk, an error or the close |
| Chunks.CollectsWhatArrives | crates/gpumesh-core/src/remote.rs:193-219 | among other messages, the result is the concatenation of the chunks received |
| Chunks.FirstStopDecides | crates/gpumesh-core/src/remote.rs:193-219 | the first final chunk, negative answer or Error message decides a download: complete, refused or failed |
| Chunks.DownloadIsPrefix | crates/gpumesh-core/src/remote.rs:193-230 | with n chunks received the result is a success with the file up to cut n; it is the whole file if and only if all chunks came |
| Paths.ResolversAgreeIff | crates/gpumesh-core/src/remote.rs:580-671 | upload and download resolve a path to the same file if and only if it is relative, has no backslash, "..", dot piece, colon or final slash, and is no job file name |
| Paths.AgreeableAgree | crates/gpumesh-core/src/remote.rs:644-671 | an agreeable path goes to the incoming directory under its own segments, both ways |
| Paths.ResolversDiffer | crates/gpumesh-core/src/remote.rs:580-671 | two paths that both sides accept and take for different files |
| Paths.SplitKeeps | crates/gpumesh-core/src/remote.rs:651 | splitting loses and invents no character but the separator |
| PathRules.PackageDest | crates/gpumesh-core/src/remote.rs:580-594 | the package of a job goes to the directory its transfer id names, and is refused exactly if that is not one proper name |
| PathRules.PackagesAreApart | crates/gpumesh-core/src/remote.rs:580-594 | packages of jobs with different plain ids go to different files, each in the directory of its own id |
| PathRules.UploadStaysBelow | crates/gpumesh-core/src/remote.rs:595-623 | which other paths are accepted, exactly; they lead to their proper names, in order, and never out of the incoming directory |
| PathRules.DownloadStaysBelow | crates/gpumesh-core/src/remote.rs:644-671 | no download leads out of the incoming directory, except to the outputs of a job with a safe id |
| PathRules.JobOutputsPath | crates/gpumesh-core/src/remote.rs:651-657 | the outputs of a job are found under its id if and only if that is a safe one |
| PathRules.SlashesAreAlike | crates/gpumesh-core/src/remote.rs:645 | leading slashes make no difference and backslashes count as slashes |
| Upload.UploadSession.constructor | crates/gpumesh-core/src/remote.rs:326-327 | a session starts without transfers |
| Upload.UploadSession.OnOffer | crates/gpumesh-core/src/remote.rs:374-396 | resumes from a shorter partial file, restarts otherwise, answers with the resume point |
| Upload.UploadSession.OnChunk | crates/gpumesh-core/src/remote.rs:401-459 | the in-place merge, mirror, hash check and clean-up are the transition the upload theorems are about |
| Upload.UploadSession.FindDest | crates/gpumesh-core/src/remote.rs:580-624 | where an upload goes; directories on the way are created unless a file is in the way or a name is invalid |
| Upload.UploadSession.MirrorBuffer | crates/gpumesh-core/src/remote.rs:420-426 | the buffer is mirrored beside the file, and a failure is ignored |
| Upload.UploadSession.StoreFile | crates/gpumesh-core/src/remote.rs:428-458 | write, hash check and clean-up; a directory in the place of the file or an invalid name ends the session |
| Upload.UnknownTransferIsIgnored | crates/gpumesh-core/src/remote.rs:404-406 | a chunk of an unknown transfer changes nothing and is not answered |
| Upload.HandlersKeepOthers | crates/gpumesh-core/src/remote.rs:374-459 | offers and chunks of one transfer leave other transfers and other files as they are |
| Upload.HashMatchesItself | crates/gpumesh-core/src/remote.rs:436-442 | a hash matches exactly itself, in small or capital letters, or an offer without a hash |
| Upload.StorableIff | crates/gpumesh-core/src/remote.rs:597-623 | a file can be stored exactly if its names are valid, no directory is in its place and no file in the place of its directories |
| Upload.PiecesFinish | crates/gpumesh-core/src/remote.rs:282-305 | a transmission from the end of the buffer finishes with buffer plus rest |
| Upload.VerdictIsAboutHash | crates/gpumesh-core/src/remote.rs:428-458 | for any chunks, the final answer says whether everything delivered has the offered hash; the file exists only then |
| Upload.AnyOrderIsAccepted | crates/gpumesh-core/src/remote.rs:401-459 | covering slices in any order are accepted and stored as the file |
| Upload.AttemptOutcome | crates/gpumesh-core/src/remote.rs:233-459 | on every disk where nothing clashes with the file, an attempt is accepted if and only if the partial file is absent, not shorter than the data, or a prefix of it; the exact disk either way |
| Upload.ClashesArePermanent | crates/gpumesh-core/src/remote.rs:375-434 | a path that ends in a slash or a dot, contains a NUL character, or clashes with files or directories, ends the session on this and every later attempt and stores nothing |
| Upload.AcceptedIsStored | crates/gpumesh-core/src/remote.rs:428-458 | after an accepted attempt the file is the data, from any disk |
| Upload.StoredFilesClash | crates/gpumesh-core/src/remote.rs:597-623 | once a file is stored, nothing can be stored inside it, nor a file in the place of one of its directories |
| Upload.TwoAttemptsSuffice | crates/gpumesh-core/src/remote.rs:376-458 | where nothing clashes with the file: whatever the partial file holds, a rejected attempt leaves neither file nor partial, and the next is accepted |
| Upload.CopyThereAndBack | crates/gpumesh-core/src/remote.rs:176-321 | an accepted upload followed by a fully delivered download of an agreeable path returns the same bytes |
| Upload.DownloadOutcome | crates/gpumesh-core/src/remote.rs:673-704 | for every disk and path, whether a download brings the file, a refusal or nothing |
| UploadCrash.StepKeepsInv | crates/gpumesh-core/src/remote.rs:255-459 | every protocol step, disconnect, crash and torn write keeps the resume invariant |
| UploadCrash.UploadSurvives | crates/gpumesh-core/src/remote.rs:255-459 | on every run the partial file is absent or a prefix of the data; an attempt that ends is accepted, the file is the data, and what the provider held at the offer plus what was sent on the wire is exactly the data |
| UploadCrash.HandlerIsSteps | crates/gpumesh-core/src/remote.rs:401-459 | the chunk handler is these crash-prone steps run without interruption: same disk, same verdict |
| UploadCrash.OfferIsStep | crates/gpumesh-core/src/remote.rs:374-396 | the offer handler is the step of the crash model: same buffer, same resume point, same files |
| UploadCrash.RetrySucceeds | crates/gpumesh-core/src/remote.rs:375-459 | wherever earlier attempts were cut off, the next uninterrupted one is accepted, if nothing on the disk clashes with the file |
| UploadCrash.AttemptCanFinish | crates/gpumesh-core/src/remote.rs:255-459 | from every reachable state of an attempt, undisturbed steps bring it to an accepted end with the file equal to the data |
| UploadCrash.NextAttemptFinishes | crates/gpumesh-core/src/remote.rs:255-459 | after any number of interrupted attempts a new one can connect and be accepted |
| Base.BigEndianRoundTrip | crates/gpumesh-protocol/src/lib.rs:384-386 | reading back a length prefix gives the length |
| Base.BigEndianValue | crates/gpumesh-protocol/src/lib.rs:384-386 | the first of the four bytes counts most, and any four bytes are those of their value |
| Frames.Codec.constructor | crates/gpumesh-protocol/src/lib.rs:376-378 | a codec for the given reader and writer |
| Frames.Codec.Decode | crates/gpumesh-protocol/src/lib.rs:380-402 | what is returned and what is left in the buffer, in all five cases |
| Frames.Codec.Encode | crates/gpumesh-protocol/src/lib.rs:408-421 | appends one frame, or refuses an oversized message and appends nothing |
| Frames.Codec.DrainBuffer | crates/gpumesh-protocol/src/lib.rs:380-402 | repeated in-place decoding is `Drain` |
| Frames.DecodeMore | crates/gpumesh-protocol/src/lib.rs:380-402 | bytes behind a decided frame change neither message nor error |
| Frames.DrainAppend | crates/gpumesh-protocol/src/lib.rs:380-402 | draining early and continuing later is draining once |
| Frames.FragmentationIsInvisible | crates/gpumesh-protocol/src/lib.rs:380-402 | for every byte stream, valid or not, and every way to cut it: same messages, same failure, same rest |
| Frames.DecodeFrame | crates/gpumesh-protocol/src/lib.rs:380-421 | an encoded message decodes to itself and consumes just its frame |
| Frames.DecodesAsFramed | crates/gpumesh-protocol/src/lib.rs:380-402 | for every length and every tail: refused above 64 MiB, waiting while short, otherwise exactly the announced bytes are taken off |
| Frames.HeaderOrWait | crates/gpumesh-protocol/src/lib.rs:381-386 | fewer than four bytes wait, and any four bytes are a length |
| Frames.BadFrameEndsStream | crates/gpumesh-protocol/src/lib.rs:397-400 | a frame that cannot be read fails the stream after everything before it was delivered |
| Frames.PrefixYieldsCompleteFrames | crates/gpumesh-protocol/src/lib.rs:380-421 | at every moment the reader has produced the complete frames and buffers a proper prefix of the next |
| Frames.StreamRoundTrip | crates/gpumesh-protocol/src/lib.rs:380-421 | encoded messages cut into any pieces come out exactly, in order, with an empty buffer |
| Archive.Package | crates/gpumesh-storage/src/package.rs:48-98 | one pass over the files gives the manifest, then header and contents in the same order |
| Archive.UnpackArchive | crates/gpumesh-storage/src/package.rs:101-127 | the cursor-based reader, with each error, what it wrote before it and what it left unread |
| Archive.Cursor.constructor | crates/gpumesh-storage/src/package.rs:102 | a file opened for reading starts at its beginning |
| Archive.Cursor.ReadExact | crates/gpumesh-storage/src/package.rs:104 | all bytes asked for, or an error at the end of the file |
| PackageNames.CleanIff | crates/gpumesh-storage/src/package.rs:129-156 | a relative name is unpacked where it was found if and only if it is clean |
| PackageNames.UnpackStaysBelow | crates/gpumesh-storage/src/package.rs:129-156 | whatever name an archive contains, it is unpacked to a proper path below the target |
| PackageNames.WhiteSpace | crates/gpumesh-storage/src/package.rs:130 | the characters that are trimmed are those that Unicode calls white space |
| PackageNames.SlashInFront | crates/gpumesh-storage/src/package.rs:130 | a slash in front of a name makes no difference |
| PackageNames.DirtyIsLighter | crates/gpumesh-storage/src/package.rs:129-156 | a dirty name without backslash that is accepted is unpacked to a place with fewer characters |
| PackageNames.NoBackslashLeft | crates/gpumesh-storage/src/package.rs:63-67 | no unpacked path contains a backslash |
| Archive.ExtractPacked | crates/gpumesh-storage/src/package.rs:117-125 | unpacking the packed contents succeeds if and only if every name is accepted and no path clashes, and stops right behind them |
| Archive.UnpackBody | crates/gpumesh-storage/src/package.rs:108-126 | whatever follows the magic, the reader gets exactly as many bytes as the length says, and the files start behind them |
| Archive.UnpackOfPack | crates/gpumesh-storage/src/package.rs:48-127 | for any files: success if and only if the manifest is shorter than 2^32 bytes and every file fits; then the same manifest, the files written in order, everything read |
| Archive.OverlayHolds | crates/gpumesh-storage/src/package.rs:117-125 | files that fit are all written, the last one of a name wins, and nothing else changes |
| Archive.CleanComesBack | crates/gpumesh-storage/src/package.rs:48-156 | into any tree without clashes: clean names come back with their contents, and nothing else changes |
| Archive.ArchiveRoundTrip | crates/gpumesh-storage/src/package.rs:48-156 | for all files a walk can find: unpack of pack into an empty directory succeeds with every file back in its place if and only if the manifest is short enough and every name is clean |
| Archive.TruncatedIsRejected | crates/gpumesh-storage/src/package.rs:101-127 | no strict prefix of a packed archive is accepted |
| Archive.TotalIsSum | crates/gpumesh-storage/src/package.rs:69-86 | the recorded total is the sum of the recorded sizes |
| Archive.ManifestDescribes | crates/gpumesh-storage/src/package.rs:55-86 | the manifest gives name, size and hash of each file in order, and the hash of all contents one after the other |
| Archive.ArchiveLayout | crates/gpumesh-storage/src/package.rs:88-106 | the letters GPK1, the length, the manifest and the contents in order; nothing without those letters is unpacked |
| Archive.DirtyNames | crates/gpumesh-storage/src/package.rs:129-146 | two names that do not survive the round trip |
| Slots.Runtime.constructor | crates/gpumesh-runtime/src/docker.rs:23-27 | no job is active at first |
| Slots.Runtime.ActiveCount | crates/gpumesh-runtime/src/docker.rs:29-31 | the number of taken slots |
| Slots.Runtime.Admit | crates/gpumesh-runtime/src/docker.rs:52-62 | takes a slot exactly if one is free |
| Slots.Runtime.Release | crates/gpumesh-runtime/src/docker.rs:125-141 | removes every slot of that name and no other |
| Slots.StepKeepsInv | crates/gpumesh-runtime/src/docker.rs:52-141 | admission, spawn failure, end and cancel keep cap and ownership |
| Slots.NoSlotLeaks | crates/gpumesh-runtime/src/docker.rs:52-141 | under every interleaving: at most cap slots, each owned by a job in flight, none left when all jobs have ended |
| Slots.ExactIffOrderly | crates/gpumesh-runtime/src/docker.rs:125-260 | the slots stay exactly the jobs in flight if and only if no event gives away a running job's slot |
| Slots.CapBoundsJobs | crates/gpumesh-runtime/src/docker.rs:52-141 | on orderly runs the cap bounds the jobs really in flight |
| Slots.NamesAreOwn | crates/gpumesh-runtime/src/docker.rs:52 | different job ids give different container names |
| Slots.OwnIdsAreOrderly | crates/gpumesh-runtime/src/docker.rs:52-141 | with different job ids and no cancel, at every moment the slots are exactly those of the jobs in flight |
| Slots.DisorderBreaksCap | crates/gpumesh-runtime/src/docker.rs:52-260 | from every reachable state with exact slots, any event that is not orderly can be followed by submissions that put more jobs in flight than the cap |
| Slots.CancelOvercommits | crates/gpumesh-runtime/src/docker.rs:248-260 | a cancel lets two jobs run under a cap of one |
| Slots.SharedNameOvercommits | crates/gpumesh-runtime/src/docker.rs:139-141 | two jobs with one id let three jobs run under a cap of two |
| Scheduler.ScorePeer | crates/gpumesh-core/src/scheduler.rs:76-89 | the score built up step by step, with wrapping i64 arithmetic |
| Scheduler.SchedulePeer | crates/gpumesh-core/src/scheduler.rs:32-109 | the filter, score, sort and pick loop makes the choice `ChoiceIsBest` describes |
| Scheduler.ScoreIsSumIff | crates/gpumesh-core/src/scheduler.rs:76-89 | the wrapping score is the plain sum of its parts if and only if that is below 2^63 |
| Scheduler.Bonuses | crates/gpumesh-core/src/scheduler.rs:76-89 | what each part adds to a score |
| Scheduler.PreferredByNameOrId | crates/gpumesh-core/src/scheduler.rs:86 | a peer is preferred by its name, its node id or the beginning of it, and by nothing else |
| Scheduler.SortIsStableSort | crates/gpumesh-core/src/scheduler.rs:103 | the sort is a permutation, descending, and keeps equal scores in order |
| Scheduler.HeadIsFirstMaximum | crates/gpumesh-core/src/scheduler.rs:103-104 | its head is the first element of maximal score |
| Scheduler.ChoiceIsBest | crates/gpumesh-core/src/scheduler.rs:40-109 | fails if and only if nobody is eligible; otherwise an eligible candidate of maximal score, first among ties |
| Scheduler.OnlyUsablePeers | crates/gpumesh-core/src/scheduler.rs:40-109 | a choice exists exactly if a peer answered, shares, is idle or of unknown status and has the memory; the chosen one is such a peer |
| Scheduler.SaneScore | crates/gpumesh-core/src/scheduler.rs:76-89 | a score that does not wrap lies between free memory plus preference bonus and 11000 above it |
| Scheduler.PreferenceHolds | crates/gpumesh-core/src/scheduler.rs:40-109 | whatever the others report, an eligible preferred peer whose score does not wrap only loses to a preferred one or to at least 39000 MB more free memory |
| Scheduler.PreferenceIff | crates/gpumesh-core/src/scheduler.rs:40-109 | for an eligible preferred peer with a percentage as utilization, the preference holds in every choice if and only if its score does not wrap |
| Scheduler.PreferenceIsTight | crates/gpumesh-core/src/scheduler.rs:76-104 | at exactly 39000 MB it can lose |
| Scheduler.WrappedScoreLoses | crates/gpumesh-core/src/scheduler.rs:76-104 | every preferred peer whose score wraps loses to a rival that reports no more free memory |
| Relay.Registrations.constructor | crates/gpumesh-relay/src/main.rs:45-48 | the table starts empty |
| Relay.Registrations.Handle | crates/gpumesh-relay/src/main.rs:49-85 | the in-place table update and action for every first message |
| Relay.CommandsParse | crates/gpumesh-network/src/relay.rs:42-75 | what clients send is understood as what they meant |
| Relay.OnlyTheseCommands | crates/gpumesh-relay/src/main.rs:52-85 | nothing but a prefix followed by an id is understood as a command |
| Relay.StepKeepsInv | crates/gpumesh-relay/src/main.rs:45-100 | every step keeps table, bridges and streams right |
| Relay.MatchingAndOrder | crates/gpumesh-relay/src/main.rs:45-100 | in every reachable state: in the table exactly while waiting, bridges are pairs, each end got a prefix of what the other sent after its command |
| Relay.PartnerForLife | crates/gpumesh-relay/src/main.rs:66-85 | once bridged, a connection never gets another partner |
| Relay.RequestIsServed | crates/gpumesh-relay/src/main.rs:66-82 | a request for a waiting id bridges the two and takes the id off the table; any other is turned away and changes nothing else |
| Relay.RegistrationWaits | crates/gpumesh-relay/src/main.rs:54-64 | a registration makes the connection wait, and closes the one that waited under its id |
| Relay.Forwarding | crates/gpumesh-relay/src/main.rs:87-100 | forwarding one message keeps all streams ordered and complete |
| Relay.ForwardDelivers | crates/gpumesh-relay/src/main.rs:87-100 | forwarding hands the oldest unread message to the other end and changes nothing else |
| Relay.EverythingArrives | crates/gpumesh-relay/src/main.rs:87-100 | from every reachable bridge, forwarding alone brings everything one end sent to the other |
| Permissions.AllowList.constructor | crates/gpumesh-security/src/lib.rs:336-347 | nobody is allowed or denied by default |
| Permissions.AllowList.IsAllowed | crates/gpumesh-security/src/lib.rs:350-355 | denial takes precedence over the job list |
| Permissions.AllowList.IsDesktopAllowed | crates/gpumesh-security/src/lib.rs:357-362 | denial takes precedence over the desktop list |
| Permissions.AllowList.IsGpuRemoteAllowed | crates/gpumesh-security/src/lib.rs:364-369 | denial takes precedence over the remoting list |
| Permissions.AllowList.PermitJobs | crates/gpumesh-security/src/lib.rs:371-375 | the whole new state |
| Permissions.AllowList.PermitDesktop | crates/gpumesh-security/src/lib.rs:377-383 | the whole new state |
| Permissions.AllowList.PermitGpuRemote | crates/gpumesh-security/src/lib.rs:385-390 | the whole new state |
| Permissions.AllowList.Forbid | crates/gpumesh-security/src/lib.rs:392-398 | the whole new state |
| Permissions.LastOperationDecides | crates/gpumesh-security/src/lib.rs:349-398 | on every run: buckets disjoint from denied, desktop within jobs, each query decided by the last operation that affects it |
| Permissions.DeniedByLast | crates/gpumesh-security/src/lib.rs:371-398 | a node is on the denied list exactly if the last operation on it was a denial |
| Permissions.GpuGrantsAreSeparate | crates/gpumesh-security/src/lib.rs:385-390 | dropping all remoting grants from a run changes neither job nor desktop permissions |

## Left out

- CudaBackend.BackendSession.OpLoadPtx: the `cuda-driver` backend (module loading, kernel launch, device buffers) is foreign code; only the host-memory backend is modelled.
- Remoting.Client.CallRemote: a failing send is not modelled; the caller of the real client sees it as a network error, like a closed connection.
- Transparency.RemotingIsTransparent: after an abandoned call it assumes fewer than 2^64 calls, so that op ids identify them, and it assumes that fresh session ids do not collide with the one in use.
- CudaEvents.ElapsedMeasures: the conversion of the elapsed time to a floating-point number of milliseconds.
- CudaEvents.DestroyedEventStaysDead: event ids saturate at u64::MAX like handles; the theorems are about ids below it.
- Chunks.DownloadIsPrefix: the announced size is only compared for a warning, so it is not part of the result.
- Upload.AttemptOutcome: one uploader per path at a time, and no path that is another path plus `.partial`, as a file or as a directory; two uploads racing on one file are not modelled; failing writes as for Upload.UploadSession.StoreFile.
- Upload.UploadSession.StoreFile: writes that fail for other reasons than a name or a directory, such as a full disk, missing permissions or the length limits of the file system for names and paths; the same holds for the four lines below.
- Upload.AnyOrderIsAccepted: as for Upload.UploadSession.StoreFile.
- Upload.TwoAttemptsSuffice: as for Upload.UploadSession.StoreFile.
- UploadCrash.RetrySucceeds: as for Upload.UploadSession.StoreFile.
- Archive.UnpackOfPack: as for Upload.UploadSession.StoreFile.
- Upload.CopyThereAndBack: the fallback of downloads to files directly below the work directory.
- UploadCrash.UploadSurvives: every attempt sends the same bytes; writes are torn at a prefix; a provider session whose uploader has gone ends at once, so it never merges buffered chunks beside the next attempt.
- Paths.ResolversAgreeIff: Unix paths only; symbolic links and canonicalisation of the incoming directory.
- Archive.ArchiveRoundTrip: walking the directory with ignore rules is replaced by the list of files found.
- Archive.UnpackArchive: empty directories in the target tree, which can also be in the way of a file.
- Scheduler.ChoiceIsBest: the list of candidates and the outcomes of the probes are inputs.
- Relay.Forwarding: messages are numbers, and the relay cannot lose a message it has read except when sending it on fails.
- Bridge: a malformed or oversized request closes its own TCP connection and never reaches the lock, so connections simply stop there.
- The libcudart stub, except for the requests it sends (raw pointers and sockets); QUIC and TLS, peer discovery, GPU detection and the Docker command line: I/O and external tools.
- Slots.NoSlotLeaks: a call of run_job that is dropped half way without running its release section.
- Signatures, pairing, invites and hello windows: thin layers over cryptography libraries.
- Which permission each session message consults, job status updates and log streaming: no uniform rule to prove.
- Control plane, dashboard, command line, configuration, groups and peer stores: HTTP handlers, screens and plain map inserts; they take no part in the protocols above.
- Size parsing and performance scores: floating-point formulas.
