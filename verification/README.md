# Verified model of the HDMI-RX camera sessions, the HDMI-TX colour choice and CEC

This project models, in Dafny, the parts of the repository where state, threads or arithmetic
interact, and proves what they are relied on for.

- **Capture pipeline** (`CaptureProtocol`, `CaptureProofs`, `CaptureOrder`, `CaptureTheorems`,
  `CaptureSession`). Client calls, output thread and the reports of offline switches as one state
  machine. A step is one critical section or one callback; runs (`Runs`) interleave them freely.
  The theorems hold in every reachable state; the class is the code, and its methods move the state
  machine.
- **Gralloc slots** (`GrallocPool`, `GrallocLife`, `GrallocSession`). The four intermediate buffers
  and the table of live handles, with the gap between picking a slot and claiming it; and the slots
  along the life of the requests of the capture pipeline.
- **Buffer ownership** (`BufferOwnership`, `BufferSessions`). Stream maps and imported buffers over
  every run of configure, import, cache removal, close and switch to offline, with any number of
  offline sessions, for known and unknown streams; and the code that does each of these steps.
- **Switch to offline** (`OfflineSwitch`) and **offline worker** (`OfflineWorker`).
- **Buffer request rendezvous** (`BufferRequest`, `BufferRequestSession`). The two threads, the
  lock that is dropped while the batch is filled in, and the wait without a predicate.
- **Geometry** (`CropGeometry`, `FormatTrim`, `IntermediateBuffers`, `JpegRows`). Formats, crop
  rectangles, plane layouts and row padding, and that they agree with one another. Aspect ratios
  and scale factors are exact rationals.
- **Colour mode** (`ColorMode`) and **CEC** (`CecFrame`, `CecUevent`, `CecHotplug`).

Where a module has a state machine and a class, the class carries the source's fields and loops,
and each method's contract equates its effect with a step or a function of the state machine; the
lemmas are about those. Driver answers, fences, timeouts and allocation results are parameters or
free choices.

Frame numbers are unique and clients name configured streams only, except where a lemma is about
just that. Sizes are positive where the source divides by them. `native_handle_create` and the
result lock do not fail.

## What does not hold

Some expected properties fail in some runs. Each has a lemma that says exactly when they hold.

- Every accepted request is answered or handed over: `CaptureTheorems.NoneLostExactly`, and the run
  `CaptureTheorems.FailedSwitchLoses`. A switch whose offline session fails to initialise loses the
  requests it has kept, and they stay in the in-flight record.
- Nothing is pending and the record is empty after `close`:
  `CaptureTheorems.CloseLeavesNothingExactly`.
- Answers in submission order: `CaptureTheorems.OrderExactly` with
  `CaptureTheorems.OvertakesExactly`, and the runs `CaptureTheorems.TimedOutFlushReorders` and
  `CaptureTheorems.LateReportReorders`. A switch releases the interface lock before it reports.
- No request in the pipeline after the emptiness check of `configureStreams`:
  `CaptureTheorems.ConfigureFindsNoRequest`, and the runs `CaptureTheorems.ConfigureDuringDelivery`
  and `CaptureTheorems.ConfigureDuringReport`.
- Every gralloc slot comes back: `GrallocPool.LostExactly`.
- Both maps of a session keep equal domains: `BufferOwnership.DomainsEqualExactly` for requests,
  `BufferSessions.Session.SupportOfflineLocked` for a switch that names an unknown stream. What that
  does to the lookups and to the frees: `BufferOwnership.LookupsStaySafeExactly`,
  `BufferOwnership.FreesStayCompleteExactly`, `BufferOwnership.CloseFreesAllExactly` and
  `BufferOwnership.LeaksExactly`.
- A wait that succeeds returns a batch: `BufferRequest.WaitsReturnTheBatchExactly`, and the run
  `BufferRequest.StaleNotifyOverruns`.
- A request error leaves the offline worker as it was: `OfflineWorker.NoDeviceErrorExactly`.
- A frame that allocation accepts has data: `IntermediateBuffers.RetryAfterOddSize`, and the exact
  condition in `IntermediateBuffers.OutputThread.AllocateIntermediateBuffers`.
- A crop that is found is not empty: `CropGeometry.CropIsEmptyExactly`.
- A higher rate never lowers the depth: `ColorMode.DepthGrowsWithRateExactly`. The comment at
  hdmi/MtkHdmiService.cpp:1118-1132 expects the branch for low latency sinks to be taken; it never
  is, and `ColorMode.NotCopiedMattersExactly` says which sinks that affects.

## Model

| member | source | states |
|---|---|---|
| CaptureTheorems.ExactlyOnce | hdmirx/HDMICameradevice/3.4/default/HdmirxCameraDeviceSession.cpp:1642-1795 | In every reachable state, over any interleaving of client calls, worker and reports, each accepted frame is answered once, pending once, handed over once or lost once, and no other frame is answered. |
| CaptureTheorems.NoneLostExactly | hdmirx/HDMICameradevice/3.6/default/HdmirxCameraDeviceSession.cpp:317-353 | Over any run, each accepted frame is answered, pending or handed over, once, if and only if no switch that kept a request had its offline session fail to initialise. |
| CaptureTheorems.LostInRun | hdmirx/HDMICameradevice/3.6/default/HdmirxCameraDeviceSession.cpp:313-322 | The lost frames of a run are none exactly when there was no such switch. |
| CaptureTheorems.InflightExactly | hdmirx/HDMICameradevice/3.4/default/HdmirxCameraDeviceSession.cpp:930-958 | `mInflightFrames` is exactly the pending frames whose report has not begun, and the lost frames that no later switch has cleared. |
| CaptureTheorems.RecordIsPendingExactly | hdmirx/HDMICameradevice/3.6/default/HdmirxCameraDeviceSession.cpp:334-338 | The record holds pending frames only if and only if no lost frame is left in it. |
| CaptureTheorems.StuckByStep | hdmirx/HDMICameradevice/3.6/default/HdmirxCameraDeviceSession.cpp:318-338 | A failed switch that keeps a request leaves it in the record; only a later switch that succeeds clears it. |
| CaptureTheorems.ConfigureFindsNoRequest | hdmirx/HDMICameradevice/3.4/default/HdmirxCameraDeviceSession.cpp:2480-2487 | When `configureStreams` finds no frame in flight, nothing is queued or stuck; frames without an answer are left if and only if a switch has an outstanding report or the worker owes its frame. |
| CaptureTheorems.StuckRefusesConfigure | hdmirx/HDMICameradevice/3.4/default/HdmirxCameraDeviceSession.cpp:2482-2486 | With a lost frame in the record every configuration is refused. |
| CaptureTheorems.ConfigureDuringDelivery | hdmirx/HDMICameradevice/3.4/default/HdmirxCameraDeviceSession.cpp:1087-1094 | A reachable state in which that check passes while frame 1 still waits for its result: the record goes before the callback. |
| CaptureTheorems.ConfigureDuringReport | hdmirx/HDMICameradevice/3.6/default/HdmirxCameraDeviceSession.cpp:90-94 | A reachable state in which it passes while a switch has yet to report the frame it dropped: the interface lock is released before the report. |
| CaptureTheorems.CloseLeavesExactly | hdmirx/HDMICameradevice/3.4/default/HdmirxCameraDeviceSession.cpp:532-559 | After `close` the pending frames are those of outstanding reports, the record holds the stuck ones, and each accepted frame has its one answer or its place offline if and only if it is in neither a report nor lost. |
| CaptureTheorems.CloseLeavesNothingExactly | hdmirx/HDMICameradevice/3.4/default/HdmirxCameraDeviceSession.cpp:532-559 | After `close` nothing is pending and the record is empty if and only if every report has been made and nothing is stuck, whether or not a wait timed out. |
| CaptureTheorems.FailedSwitchLoses | hdmirx/HDMICameradevice/3.6/default/HdmirxCameraDeviceSession.cpp:317-322 | A reachable closed session with frame 1 lost and still in its record. |
| CaptureTheorems.OrderExactly | hdmirx/HDMICameradevice/3.4/default/HdmirxCameraDeviceSession.cpp:1891-1941 | The answers come out in submission order if and only if none has been given past an older frame still owed. |
| CaptureTheorems.OvertakesExactly | hdmirx/HDMICameradevice/3.6/default/HdmirxCameraDeviceSession.cpp:82-99 | Which answers those are: the worker's past an older report, a flush's past any report or the worker's frame, a report past an older report or the worker's frame. |
| CaptureTheorems.InversionBreaksOrder | hdmirx/HDMICameradevice/3.4/default/HdmirxCameraDeviceSession.cpp:1891-1915 | One overtaken frame spoils the order for good: the older frame can only follow. |
| CaptureTheorems.PromptRunsKeepOrder | hdmirx/HDMICameradevice/3.4/default/HdmirxCameraDeviceSession.cpp:1902-1908 | With every wait ended by its signal, and no request submitted while a dropped one is still unreported, the answers are a prefix of the accepted frames that stayed. |
| CaptureTheorems.TimedOutFlushReorders | hdmirx/HDMICameradevice/3.4/default/HdmirxCameraDeviceSession.cpp:1904-1914 | A reachable state after a timed-out flush in which frame 2 is answered before frame 1. |
| CaptureTheorems.LateReportReorders | hdmirx/HDMICameradevice/3.6/default/HdmirxCameraDeviceSession.cpp:90-94 | A reachable state without a timeout in which the new frame 2 is answered while the dropped frame 1 is not yet reported. |
| CaptureTheorems.DeviceErrorStopsWorker | hdmirx/HDMICameradevice/3.4/default/HdmirxCameraDeviceSession.cpp:1677-1683 | There is at most one device error; the worker answers nothing after it, so all later answers are request errors of a flush or switch. |
| CaptureTheorems.RankDecreases | hdmirx/HDMICameradevice/3.4/default/HdmirxCameraDeviceSession.cpp:1891-1990 | Between client calls every step lowers a natural number: no call and no turn of the worker goes on for ever. |
| CaptureTheorems.CallsNeverStick | hdmirx/HDMICameradevice/3.4/default/HdmirxCameraDeviceSession.cpp:1891-1941 | A call in progress always has a step that is neither a timeout nor a report: no deadlock. |
| CaptureProofs.AccountingStep | hdmirx/HDMICameradevice/3.4/default/HdmirxCameraDeviceSession.cpp:930-1091 | Every step keeps the balance of frames, the exact in-flight record, and the shape of the client state. |
| CaptureProofs.PendingGives | hdmirx/HDMICameradevice/3.4/default/HdmirxCameraDeviceSession.cpp:1677-1795 | An answer takes its frames out of the pending ones, from between those ahead of it and those behind it. |
| CaptureProofs.RecordsPartition | hdmirx/HDMICameradevice/3.6/default/HdmirxCameraDeviceSession.cpp:218-225 | A switch clears the record, or, if its session fails, takes out exactly the dropped frames. |
| CaptureOrder.InOrderStep | hdmirx/HDMICameradevice/3.4/default/HdmirxCameraDeviceSession.cpp:1882-1980 | Every step that overtakes nothing keeps answers followed by pending frames equal to the accepted order. |
| CaptureOrder.OvertakeInverts | hdmirx/HDMICameradevice/3.4/default/HdmirxCameraDeviceSession.cpp:1912-1914 | An answer past an older owed frame puts that frame behind a younger one. |
| CaptureOrder.InvertedStep | hdmirx/HDMICameradevice/3.4/default/HdmirxCameraDeviceSession.cpp:1891-1941 | An inversion survives every later step. |
| CaptureOrder.AloneStep | hdmirx/HDMICameradevice/3.6/default/HdmirxCameraDeviceSession.cpp:82-99 | Without timeouts and without submissions past a report, whoever answers a frame is the only one to owe any. |
| CaptureOrder.InvReachable | hdmirx/HDMICameradevice/3.4/default/HdmirxCameraDeviceSession.cpp:1882-1990 | All these invariants hold in every reachable state. |
| CaptureOrder.PartitionedWithout | hdmirx/HDMICameradevice/3.6/default/HdmirxCameraDeviceSession.cpp:212-271 | Taking the kept frames out of the accepted order leaves answered, owed and dropped frames in order. |
| CaptureSession.Session.RecordInflight | hdmirx/HDMICameradevice/3.4/default/HdmirxCameraDeviceSession.cpp:930-933 | The frame enters the record: the protocol step and nothing else. |
| CaptureSession.Session.SubmitRequest | hdmirx/HDMICameradevice/3.4/default/HdmirxCameraDeviceSession.cpp:1882-1889 | The request joins the end of the queue. |
| CaptureSession.Session.NoneInflight | hdmirx/HDMICameradevice/3.4/default/HdmirxCameraDeviceSession.cpp:2480-2487 | The emptiness check: true exactly when nothing is stuck and each pending frame is one whose record is already gone; then the queue is empty. |
| CaptureSession.Session.WaitForNextRequest | hdmirx/HDMICameradevice/3.4/default/HdmirxCameraDeviceSession.cpp:1943-1982 | Nothing from an empty queue; otherwise its first request, now under work, and the rest stay queued. |
| CaptureSession.Session.ThreadLoop | hdmirx/HDMICameradevice/3.4/default/HdmirxCameraDeviceSession.cpp:1642-1795 | One turn, all other threads moving between its critical sections: the first request gets exactly one answer and is pending and recorded no more. It is good exactly for a good request that has one output, or a usable buffer and a copy that succeeds; a request error exactly for a bad request or no usable buffer; a device error exactly for a copy that fails, and only then no other turn is asked for. |
| CaptureSession.Session.Flush | hdmirx/HDMICameradevice/3.4/default/HdmirxCameraDeviceSession.cpp:1891-1915 | All that was queued is answered with a request error while worker and reports run alongside; only what those owe is left. |
| CaptureSession.Session.ProcessCaptureRequestError | hdmirx/HDMICameradevice/3.4/default/HdmirxCameraDeviceSession.cpp:968-1029 | The report of one flushed request, its record erased first, the others free to run between. |
| CaptureSession.Session.TakeForOffline | hdmirx/HDMICameradevice/3.4/default/HdmirxCameraDeviceSession.cpp:1917-1941 | The whole queue is taken and the worker waited for, as in a flush, and no request is answered. |
| CaptureSession.Session.SwitchToOffline | hdmirx/HDMICameradevice/3.6/default/HdmirxCameraDeviceSession.cpp:199-353 | Under the lock: the dropped requests become an unreported result; the kept ones are handed over and the record is cleared, or, if the offline session fails, they are lost and stay in the record. |
| CaptureSession.Session.DeliverReport | hdmirx/HDMICameradevice/3.6/default/HdmirxCameraDeviceSession.cpp:82-99 | Later, without the lock: the dropped requests are answered, in order, whatever calls are in progress. |
| CaptureSession.Session.Join | hdmirx/HDMICameradevice/3.4/default/HdmirxCameraDeviceSession.cpp:232-239 | With an exit asked for and an empty queue the worker stops. |
| CaptureSession.Session.Close | hdmirx/HDMICameradevice/3.4/default/HdmirxCameraDeviceSession.cpp:532-559 | Flush, exit request and join leave only outstanding reports pending, and in the record only what a failed switch has left there. |
| GrallocLife.ReturnsMeetTheGuard | hdmirx/HDMICameradevice/3.4/default/HdmirxCameraDeviceSession.cpp:926-928 | Over every run of requests and slots together, each call of `setGrallocBufferStatus`, by a failed submission or by the worker, is made for a request that holds a slot, with the index of that dequeued slot. |
| GrallocLife.HoldersExactly | hdmirx/HDMICameradevice/3.4/default/HdmirxCameraDeviceSession.cpp:780-826 | The holders of slots are exactly the outstanding two-output requests with status true whose slot the worker has not returned, and the one being made. |
| GrallocLife.OutstandingNeverShare | hdmirx/HDMICameradevice/3.4/default/HdmirxCameraDeviceSession.cpp:780-826 | Two of them hold distinct dequeued slots with different buffers. |
| GrallocLife.ReturnedAtMostOnce | hdmirx/HDMICameradevice/3.4/default/HdmirxCameraDeviceSession.cpp:1779-1779 | A submitted request that holds no slot never holds or returns one again: each hand-out is returned at most once. |
| GrallocLife.BothRun | hdmirx/HDMICameradevice/3.4/default/HdmirxCameraDeviceSession.cpp:676-943 | Every run of the whole is a run of the capture protocol and one of the pool, so that what is proved of either holds of it. |
| GrallocLife.GuardHolds | hdmirx/HDMICameradevice/3.4/default/HdmirxCameraDeviceSession.cpp:1779-1779 | A return finds the request holding the slot and takes it from the holders. |
| GrallocLife.ClaimIsFresh | hdmirx/HDMICameradevice/3.4/default/HdmirxCameraDeviceSession.cpp:780-788 | A claim is made for a request that holds none. |
| GrallocLife.CaptureHolders | hdmirx/HDMICameradevice/3.4/default/HdmirxCameraDeviceSession.cpp:1751-1759 | Each step of the capture takes from the holders exactly what it gives up: a request without a usable buffer, or one that a flush or a switch has taken. |
| GrallocLife.InvStep | hdmirx/HDMICameradevice/3.4/default/HdmirxCameraDeviceSession.cpp:676-943 | Every step keeps holders, indices and the pool consistent. |
| GrallocPool.SlotsNeverShared | hdmirx/HDMICameradevice/3.4/default/HdmirxCameraDeviceSession.cpp:780-826 | Two requests that hold a slot hold different ones, each dequeued and backed by its own live buffer of the slot's size. |
| GrallocPool.ClaimGivesTheSize | hdmirx/HDMICameradevice/3.4/default/HdmirxCameraDeviceSession.cpp:788-826 | A handed-out slot has the size asked for, and the hand-out leaves every other holder's slot alone. |
| GrallocPool.ClaimExactly | hdmirx/HDMICameradevice/3.4/default/HdmirxCameraDeviceSession.cpp:788-825 | A claim succeeds if and only if the picked slot is a returned one of the size asked for, which keeps its buffer, or the allocation succeeds, which gives it the new handle; otherwise the slot is free. The old buffer leaves the table unless it is reused. |
| GrallocPool.FreeNeverMisses | hdmirx/HDMICameradevice/3.4/default/HdmirxCameraDeviceSession.cpp:802-810 | In every reachable state the resize path finds the handle of a returned slot in the table. |
| GrallocPool.GrabKeepsTable | hdmirx/HDMICameradevice/3.4/default/HdmirxCameraDeviceSession.cpp:788-825 | Claiming keeps the live handles exactly those of the slots that are not free. |
| GrallocPool.ReturnKeepsTable | hdmirx/HDMICameradevice/3.4/default/HdmirxCameraDeviceSession.cpp:585-588 | So does returning a slot. |
| GrallocPool.InvStep | hdmirx/HDMICameradevice/3.4/default/grallocdev.cpp:73-121 | Every step keeps the table exact, the holders apart, and the picked slot available. |
| GrallocPool.PickIsStable | hdmirx/HDMICameradevice/3.4/default/HdmirxCameraDeviceSession.cpp:202-213 | Nothing another thread does between the two locked sections disturbs the slot that was picked. |
| GrallocPool.PickFailsExactly | hdmirx/HDMICameradevice/3.4/default/HdmirxCameraDeviceSession.cpp:202-213 | No index if and only if all four slots are dequeued; the first returned slot is preferred to the first free one. |
| GrallocPool.LostExactly | hdmirx/HDMICameradevice/3.4/default/HdmirxCameraDeviceSession.cpp:1751-1759 | A slot is dequeued and held by nobody after a step if and only if it was so before or its holder has just been given up; it is then never handed out, returned or freed again. |
| GrallocPool.FourLostExhaust | hdmirx/HDMICameradevice/3.4/default/HdmirxCameraDeviceSession.cpp:780-785 | After four such losses no two-output request is ever accepted. |
| GrallocSession.GrallocDevice.Alloc | hdmirx/HDMICameradevice/3.4/default/grallocdev.cpp:73-98 | The new handle enters the table with its size, or nothing changes. |
| GrallocSession.GrallocDevice.Release | hdmirx/HDMICameradevice/3.4/default/grallocdev.cpp:100-121 | A live handle leaves the table; an unknown one is refused. |
| GrallocSession.Session.GetGrallocBufferIndex | hdmirx/HDMICameradevice/3.4/default/HdmirxCameraDeviceSession.cpp:202-213 | The two loops give the first returned slot, without one the first free slot, and no index exactly when all are dequeued. |
| GrallocSession.Session.ClaimBuffer | hdmirx/HDMICameradevice/3.4/default/HdmirxCameraDeviceSession.cpp:788-826 | The code does the claim step, failures included, and never misses its table; it succeeds exactly for a returned slot of equal size or with a successful allocation, and the slot is then dequeued with that size. |
| GrallocSession.Session.SetGrallocBufferStatus | hdmirx/HDMICameradevice/3.4/default/HdmirxCameraDeviceSession.cpp:585-588 | The slot is marked as returned, whoever calls; for a request that holds it this is the return step. |
| GrallocSession.Session.Destroy | hdmirx/HDMICameradevice/3.4/default/HdmirxCameraDeviceSession.cpp:256-271 | Exactly the buffers of dequeued slots stay allocated. |
| BufferOwnership.HeldFreedOrLeaked | hdmirx/HDMICameradevice/3.6/default/HdmirxCameraDeviceSession.cpp:290-332 | Over every run, also with requests for unknown streams, each imported handle is in one place of one session, or freed exactly once, or leaked by a switch: never two of these. |
| BufferOwnership.OneOwnerOrFreedOnce | hdmirx/HDMICameradevice/3.6/default/HdmirxCameraDeviceSession.cpp:290-332 | While requests name configured streams, nothing leaks: each handle is in one place and never freed, or in none and freed once. |
| BufferOwnership.NeverFreedTwice | hdmirx/HDMICameradevice/3.4/default/HdmirxCameraDeviceSession.cpp:2006-2032 | In no run is a handle freed twice, or one that was not imported. |
| BufferOwnership.LookupsNeverFail | hdmirx/HDMICameradevice/3.4/default/HdmirxCameraDeviceSession.cpp:2006-2012 | While requests name configured streams, an open session has a cache for exactly its streams, so every `.at(id)` finds its entry. |
| BufferOwnership.AllClosedAllFreed | hdmirx/HDMICameradevice/3.6/default/HdmirxCameraOfflineSession.cpp:515-547 | Then, once all sessions are closed, every imported handle has been freed, once. |
| BufferOwnership.CloseFreesAllExactly | hdmirx/HDMICameradevice/3.4/default/HdmirxCameraDeviceSession.cpp:542-549 | A close frees every handle of its session, once, if and only if each is cached for a stream of the stream map. |
| BufferOwnership.LeaksExactly | hdmirx/HDMICameradevice/3.6/default/HdmirxCameraDeviceSession.cpp:324-332 | A switch leaks exactly the buffers cached for streams outside the stream map, and no other step leaks any. |
| BufferOwnership.DomainsEqualExactly | hdmirx/HDMICameradevice/3.4/default/HdmirxCameraDeviceSession.cpp:591-638 | After a request both maps have equal domains if and only if, accepted, each stream it names is known or comes with a buffer, or, refused, each buffer up to the one that fails is empty or for a known stream. |
| BufferOwnership.LookupsStaySafeExactly | hdmirx/HDMICameradevice/3.4/default/HdmirxCameraDeviceSession.cpp:755-755 | The later lookups stay safe if and only if the request is refused or each stream it names is known or comes with a buffer. |
| BufferOwnership.FreesStayCompleteExactly | hdmirx/HDMICameradevice/3.4/default/HdmirxCameraDeviceSession.cpp:614-625 | All buffers it has cached are for streams of the stream map, and so freed at close, if and only if it is accepted or each buffer before the one that fails is empty or for a known stream. |
| BufferOwnership.KnownStreamsKeepDomains | hdmirx/HDMICameradevice/3.4/default/HdmirxCameraUtils.cpp:186-222 | Requests that name configured streams only change neither domain. |
| BufferOwnership.ImportAll | hdmirx/HDMICameradevice/3.4/default/HdmirxCameraDeviceSession.cpp:614-625 | The import loop: which streams get an entry, which a buffer, and whether it ends well. |
| BufferOwnership.RequestSteps | hdmirx/HDMICameradevice/3.4/default/HdmirxCameraUtils.cpp:204-217 | What each step of a request does to the two domains. |
| BufferOwnership.MoveOwned | hdmirx/HDMICameradevice/3.6/default/HdmirxCameraDeviceSession.cpp:290-303 | Moving streams to an offline session renames places and neither loses nor doubles a handle. |
| BufferOwnership.SwitchOwned | hdmirx/HDMICameradevice/3.6/default/HdmirxCameraDeviceSession.cpp:290-332 | The whole switch keeps ownership, whether the offline session initialises, is returned, or is destroyed. |
| BufferOwnership.ConfigureOwned | hdmirx/HDMICameradevice/3.4/default/HdmirxCameraDeviceSession.cpp:2497-2524 | Reconfiguring keeps ownership. |
| BufferOwnership.ImportOwned | hdmirx/HDMICameradevice/3.4/default/HdmirxCameraUtils.cpp:204-221 | Importing keeps ownership. |
| BufferOwnership.ImportPlaces | hdmirx/HDMICameradevice/3.4/default/HdmirxCameraUtils.cpp:204-221 | An imported handle is found in its own session under its own stream and buffer id, and every other place keeps what it had. |
| BufferOwnership.RemovePlaces | hdmirx/HDMICameradevice/3.4/default/HdmirxCameraDeviceSession.cpp:2014-2032 | Cache removal takes exactly the listed buffers of the device session. |
| BufferOwnership.ConfigurePlaces | hdmirx/HDMICameradevice/3.4/default/HdmirxCameraDeviceSession.cpp:2497-2524 | Reconfiguring leaves exactly the given streams and takes exactly the buffers of those it removes; every other handle stays in its place. |
| BufferOwnership.ClosePlaces | hdmirx/HDMICameradevice/3.4/default/HdmirxCameraDeviceSession.cpp:542-549 | Closing takes exactly the session's buffers for streams of its stream map, and a second close none. |
| BufferOwnership.SwitchPlaces | hdmirx/HDMICameradevice/3.6/default/HdmirxCameraDeviceSession.cpp:290-332 | After a switch the offline session, if it is handed out, has exactly the buffers of the streams it takes, under the same ids; the device session has none, or, if the offline one failed to initialise, those of the other streams; every other session is as it was. |
| BufferOwnership.ShrunkOwned | hdmirx/HDMICameradevice/3.4/default/HdmirxCameraDeviceSession.cpp:2014-2032 | Taking handles out and freeing each once keeps ownership. |
| BufferOwnership.DomainsStep | hdmirx/HDMICameradevice/3.4/default/HdmirxCameraDeviceSession.cpp:2497-2524 | Steps that name known streams keep the domains of both maps equal. |
| BufferSessions.Session.ImportBufferImpl | hdmirx/HDMICameradevice/3.4/default/HdmirxCameraUtils.cpp:186-222 | A known buffer is reused, a new one imported and cached under its own id, a missing or bad one refused, an unknown stream given an entry; after a success with a buffer that is not empty its id is cached, with the new handle or the one it had. |
| BufferSessions.Session.ImportBuffer | hdmirx/HDMICameradevice/3.4/default/HdmirxCameraDeviceSession.cpp:574-583 | The code does the import step, or no more than enter the stream; after a success the buffer is cached under its own stream and id. |
| BufferSessions.Session.CleanupBuffersLocked | hdmirx/HDMICameradevice/3.4/default/HdmirxCameraDeviceSession.cpp:2006-2012 | The stream's handles are freed, each once, and its entry goes. |
| BufferSessions.Session.UpdateBufferCaches | hdmirx/HDMICameradevice/3.4/default/HdmirxCameraDeviceSession.cpp:2014-2032 | The code does the removal step: exactly the listed buffers that are cached are removed and freed, each once, however often they are listed. |
| BufferSessions.Session.AddStreams | hdmirx/HDMICameradevice/3.4/default/HdmirxCameraDeviceSession.cpp:2498-2504 | New streams get an entry in both maps, known ones keep their buffers. |
| BufferSessions.Session.ConfigureStreams | hdmirx/HDMICameradevice/3.4/default/HdmirxCameraDeviceSession.cpp:2497-2524 | Both maps end with exactly the configured streams; the code does the configure step. |
| BufferSessions.Session.Close | hdmirx/HDMICameradevice/3.4/default/HdmirxCameraDeviceSession.cpp:542-556 | Everything is freed once; a second close does nothing. |
| BufferSessions.Session.SupportOfflineLocked | hdmirx/HDMICameradevice/3.6/default/HdmirxCameraDeviceSession.cpp:117-125 | An unknown id is answered with false and enters the stream map alone: exactly then the two maps differ afterwards. |
| BufferSessions.Session.TakeStreams | hdmirx/HDMICameradevice/3.6/default/HdmirxCameraDeviceSession.cpp:293-303 | The offline streams and their buffers leave both maps and are handed on unchanged. |
| BufferSessions.Session.SwitchToOffline | hdmirx/HDMICameradevice/3.6/default/HdmirxCameraDeviceSession.cpp:290-352 | The two sessions together end as the switch step says. |
| BufferSessions.RemovedMore | hdmirx/HDMICameradevice/3.4/default/HdmirxCameraDeviceSession.cpp:2016-2031 | One more cache to remove frees its handle only if it is still there. |
| OfflineSwitch.Conserved | hdmirx/HDMICameradevice/3.6/default/HdmirxCameraDeviceSession.cpp:212-271 | For any remaining requests, each (frame, stream, buffer id, fence) comes back in a result or goes on in a kept request exactly as often as it was there: the acquire fence, or -1 without one, is what a result releases. |
| OfflineSwitch.KeptInOrder | hdmirx/HDMICameradevice/3.6/default/HdmirxCameraDeviceSession.cpp:218-270 | The kept requests are exactly those with an offline buffer, in their order. |
| OfflineSwitch.KeptIsOffline | hdmirx/HDMICameradevice/3.6/default/HdmirxCameraDeviceSession.cpp:227-270 | No kept request is empty and it asks for offline streams only. |
| OfflineSwitch.OfflineBuffers | hdmirx/HDMICameradevice/3.6/default/HdmirxCameraDeviceSession.cpp:234-269 | A kept request keeps exactly its offline buffers, in their order. |
| OfflineSwitch.Reported | hdmirx/HDMICameradevice/3.6/default/HdmirxCameraDeviceSession.cpp:223-264 | The k-th error message tells what the k-th result returns, and every request gets its shutter, with its frame and timestamp, in order. |
| OfflineSwitch.ShutterBeforeError | hdmirx/HDMICameradevice/3.6/default/HdmirxCameraDeviceSession.cpp:223-264 | No error of a frame is told before its shutter. |
| OfflineSwitch.PartitionDivides | hdmirx/HDMICameradevice/3.6/default/HdmirxCameraDeviceSession.cpp:212-271 | With distinct frames, the frames kept and the frames failed are the two halves of the capture protocol's step, in order, and those that leave the record are the failed ones. |
| OfflineSwitch.PartitionIsProtocolStep | hdmirx/HDMICameradevice/3.6/default/HdmirxCameraDeviceSession.cpp:212-271 | For any set of frames that tells the droppable requests apart, kept and failed frames are the two halves it gives. |
| OfflineSwitch.ReturnedOrOffline | hdmirx/HDMICameradevice/3.6/default/HdmirxCameraDeviceSession.cpp:235-268 | Each buffer of a kept request is either returned with an error or kept. |
| OfflineSwitch.CanDropRequest | hdmirx/HDMICameradevice/3.6/default/HdmirxCameraDeviceSession.cpp:127-138 | True if and only if no buffer is of an offline stream. |
| OfflineSwitch.FailRequest | hdmirx/HDMICameradevice/3.4/default/HdmirxCameraDeviceSession.cpp:968-1029 | A shutter, a request error, and one final result that returns every buffer; the frame leaves the in-flight record. |
| OfflineSwitch.ReturnBuffers | hdmirx/HDMICameradevice/3.6/default/HdmirxCameraDeviceSession.cpp:234-269 | The inner loops compute the specified messages, results and kept buffers. |
| OfflineSwitch.Partition | hdmirx/HDMICameradevice/3.6/default/HdmirxCameraDeviceSession.cpp:212-271 | The nested loops compute the specified outcome, and take only the frames of failed requests out of the record. |
| BufferRequest.WaitsReturnTheBatchExactly | hdmirx/HDMICameradevice/3.5/default/HdmirxCameraDeviceSession.cpp:110-130 | Over every run, late notifications and spurious wake-ups included: every wait that succeeded has returned the batch of its start, same streams in order, a buffer with the id and fence of its own reply and marked imported, or unchanged without one, if and only if no wake-up has yet found nothing to return. |
| BufferRequest.FooledExactly | hdmirx/HDMICameradevice/3.5/default/HdmirxCameraDeviceSession.cpp:118-128 | That is a wake-up with no batch pending, and nothing else: the wait checks no predicate. |
| BufferRequest.NowIsRightExactly | hdmirx/HDMICameradevice/3.5/default/HdmirxCameraDeviceSession.cpp:126-128 | Under the invariant, ending a wait returns the right batch if and only if one is pending. |
| BufferRequest.DisciplineSuffices | hdmirx/HDMICameradevice/3.5/default/HdmirxCameraDeviceSession.cpp:118-125 | Without spurious wake-ups, a worker that begins no blocking wait between the publication of a batch and its notification never gets the wrong batch. |
| BufferRequest.LateNotifyCanBeRight | hdmirx/HDMICameradevice/3.5/default/HdmirxCameraDeviceSession.cpp:244-248 | A reachable state in which a wait ended by a late notification has returned the right batch. |
| BufferRequest.WokenForNothing | hdmirx/HDMICameradevice/3.5/default/HdmirxCameraDeviceSession.cpp:244-248 | A reachable state in which a late notification has ended a wait with an empty batch while one is outstanding. |
| BufferRequest.StaleNotifyOverruns | hdmirx/HDMICameradevice/3.5/default/HdmirxCameraDeviceSession.cpp:196-219 | From there, a reachable state in which the thread is about to index a buffer beyond the end of the batch. |
| BufferRequest.InvStep | hdmirx/HDMICameradevice/3.5/default/HdmirxCameraDeviceSession.cpp:88-250 | Every step whose wake-up finds a batch keeps at most one batch outstanding, in the thread's hands or ready to return, filled in as far as the replies say. |
| BufferRequest.KeptStep | hdmirx/HDMICameradevice/3.5/default/HdmirxCameraDeviceSession.cpp:88-250 | Every step whatever keeps the invariant as long as no wake-up has found nothing, and remembers a wrong return after that. |
| BufferRequest.OneOutstanding | hdmirx/HDMICameradevice/3.5/default/HdmirxCameraDeviceSession.cpp:88-108 | Until then a start is taken if and only if it is not empty and nothing is outstanding. |
| BufferRequest.FooledTakesTwo | hdmirx/HDMICameradevice/3.5/default/HdmirxCameraDeviceSession.cpp:97-105 | Right after it a start is taken although a batch is outstanding. |
| BufferRequest.BatchStaysPut | hdmirx/HDMICameradevice/3.5/default/HdmirxCameraDeviceSession.cpp:211-219 | Until then, while the lock is dropped for the call or an import, no step of the worker changes the batch; its length stays that of the request list. |
| BufferRequest.GivingUpIsForGood | hdmirx/HDMICameradevice/3.5/default/HdmirxCameraDeviceSession.cpp:183-238 | A thread that gives up in mid-batch leaves it outstanding: every later start is refused, and the only wait that can still succeed is one woken for nothing. |
| BufferRequest.FillKeepsInv | hdmirx/HDMICameradevice/3.5/default/HdmirxCameraDeviceSession.cpp:198-247 | One turn of the fill loop, or the hand-over after it, keeps the invariant. |
| BufferRequest.FilledMore | hdmirx/HDMICameradevice/3.5/default/HdmirxCameraDeviceSession.cpp:211-232 | One more reply fills in one more buffer. |
| BufferRequestSession.BufferRequestThread.RequestBufferStart | hdmirx/HDMICameradevice/3.5/default/HdmirxCameraDeviceSession.cpp:88-108 | Success exactly for a non-empty batch with none outstanding; otherwise nothing changes. |
| BufferRequestSession.BufferRequestThread.WaitForBufferRequestDone | hdmirx/HDMICameradevice/3.5/default/HdmirxCameraDeviceSession.cpp:110-130 | With late notifications and spurious wake-ups: success returns the right batch and leaves none outstanding, or, exactly when a wake-up finds none, an empty one; failure leaves it outstanding. |
| BufferRequestSession.BufferRequestThread.WaitForNextRequest | hdmirx/HDMICameradevice/3.5/default/HdmirxCameraDeviceSession.cpp:132-159 | The request list is the streams of the batch, one buffer each. |
| BufferRequestSession.BufferRequestThread.FillOne | hdmirx/HDMICameradevice/3.5/default/HdmirxCameraDeviceSession.cpp:198-247 | The code does the fill step. |
| BufferRequestSession.BufferRequestThread.FillAll | hdmirx/HDMICameradevice/3.5/default/HdmirxCameraDeviceSession.cpp:196-249 | The loop, the lock dropped for each import and the worker moving meanwhile, publishes the batch with each buffer as its reply says exactly when no reply is malformed and no import fails; else it gives up with the batch unpublished. |
| BufferRequestSession.BufferRequestThread.ThreadLoop | hdmirx/HDMICameradevice/3.5/default/HdmirxCameraDeviceSession.cpp:161-250 | One turn of the thread: the batch comes back with each buffer as its reply says, or the thread ends, which it does exactly with an exit pending, an error of the transaction, a wrong number of replies, a malformed reply or a failed import. |
| OfflineWorker.AnswersInOrder | hdmirx/HDMICameradevice/3.6/default/HdmirxCameraOfflineSession.cpp:102-282 | The answers are for a prefix of the requests handed over, in order, one each. |
| OfflineWorker.AllUnlessDeviceError | hdmirx/HDMICameradevice/3.6/default/HdmirxCameraOfflineSession.cpp:109-123 | A device error can only be the last answer, and only it leaves requests unanswered. |
| OfflineWorker.NoDeviceErrorExactly | hdmirx/HDMICameradevice/3.6/default/HdmirxCameraOfflineSession.cpp:150-169 | All requests are answered without a device error if and only if each is harmless and only the last has a malformed frame: the buffer request a malformed frame leaves behind fails the next one. |
| OfflineWorker.OutputThread.ThreadLoop | hdmirx/HDMICameradevice/3.6/default/HdmirxCameraOfflineSession.cpp:102-282 | The first request leaves the list with one answer: a result exactly when it can be served, comes out, is granted and is written wherever its buffers came; a request error exactly for a JPEG that does not come out; a buffer is good exactly if it came and its fence signalled. |
| OfflineWorker.OutputThread.Run | hdmirx/HDMICameradevice/3.6/default/HdmirxCameraOfflineSession.cpp:102-282 | The thread stops, and its answers are those of the requests it got to. |
| CropGeometry.AspectRatioCloseExactly | hdmirx/HDMICameradevice/3.4/default/HdmirxCameraUtils.cpp:175-180 | Two sizes are close if and only if their real quotients differ by less than 0.025. |
| CropGeometry.RatiosToldApart | hdmirx/HDMICameradevice/3.4/default/HdmirxCameraUtils.cpp:258-264 | Sizes of 4:3, 16:9, 2:1 and 20:9 are close if and only if they have the same ratio. |
| CropGeometry.CropSucceedsExactly | hdmirx/HDMICameradevice/3.4/default/HdmirxCameraUtils.cpp:246-303 | A crop exists if and only if the ratios are close or the output's ratio fits into the input to within one row or column. |
| CropGeometry.CropIsRight | hdmirx/HDMICameradevice/3.4/default/HdmirxCameraUtils.cpp:246-303 | The rectangle is inside, keeps one side whole, has the output's ratio to within two pixels, is centred, and even for an even frame. |
| CropGeometry.CropIsEmptyExactly | hdmirx/HDMICameradevice/3.4/default/HdmirxCameraUtils.cpp:271-300 | A success with an empty rectangle: exactly when less than two rows or columns are left. |
| CropGeometry.CropIsAccepted | hdmirx/HDMICameradevice/3.4/default/HdmirxCameraUtils.cpp:149-162 | What `getCropRect` finds for an even frame, `getCroppedLayout` accepts. |
| CropGeometry.CropWindows | hdmirx/HDMICameradevice/3.4/default/HdmirxCameraUtils.cpp:164-172 | Each pixel of the Y, Cb and Cr windows is that pixel of the picture and lies in its own plane of the w*h*3/2 bytes. |
| CropGeometry.FrameBytesExactly | hdmirx/HDMICameradevice/3.4/default/HdmirxCameraUtils.cpp:113-116 | The allocated size is w*h*3/2 if and only if the product does not overflow 32 bits. |
| CropGeometry.AllocatedFrame.Allocate | hdmirx/HDMICameradevice/3.4/default/HdmirxCameraUtils.cpp:106-129 | Odd sizes are refused; otherwise the data has the computed size and the planes follow each other. |
| CropGeometry.AllocatedFrame.GetCroppedLayout | hdmirx/HDMICameradevice/3.4/default/HdmirxCameraUtils.cpp:149-173 | The code computes the specified layout, or refuses, exactly for a window beyond the frame or with an odd number. |
| CropGeometry.ThumbCropIsRight | hdmirx/HDMICameradevice/3.4/default/HdmirxCameraDeviceSession.cpp:1276-1320 | The thumbnail crop is even, inside, centred, keeps one side whole but for an odd pixel, and has the thumbnail's ratio. |
| CropGeometry.ThumbRejectedExactly | hdmirx/HDMICameradevice/3.4/default/HdmirxCameraDeviceSession.cpp:1322-1338 | The sanity check rejects exactly the crops with a side that rounds to zero. |
| CropGeometry.ThumbIsAccepted | hdmirx/HDMICameradevice/3.4/default/HdmirxCameraDeviceSession.cpp:1340-1349 | `getCroppedLayout` accepts every thumbnail crop. |
| FormatTrim.TrimIsRight | hdmirx/HDMICameradevice/3.4/default/HdmirxCameraDevice.cpp:854-902 | Trimming leaves exactly the formats close to the largest one's ratio or on the side of it that can be cut to, counts kept and in order; the largest, by width and then height or the reverse, comes last; it is empty only for an empty list. |
| FormatTrim.KeptIsCroppable | hdmirx/HDMICameradevice/3.4/default/HdmirxCameraDevice.cpp:884-901 | Every kept size can be cropped from the largest with the same cropping type. |
| FormatTrim.RemovedIsNotCroppable | hdmirx/HDMICameradevice/3.4/default/HdmirxCameraDevice.cpp:884-901 | And only those are kept, unless one row or column outweighs the ratio tolerance. |
| FormatTrim.Sort | hdmirx/HDMICameradevice/3.4/default/HdmirxCameraDevice.cpp:857-874 | The list in order, each format as often as it was there. |
| FormatTrim.TrimSupportedFormats | hdmirx/HDMICameradevice/3.4/default/HdmirxCameraDevice.cpp:854-902 | The list is sorted and the loop computes the specified sublist of it. |
| FormatTrim.CameraDevice.InitSupportedFormats | hdmirx/HDMICameradevice/3.4/default/HdmirxCameraDevice.cpp:969-1024 | The chosen list belongs to the chosen type; the other's largest size is not larger, nor, when neither is larger, are its sizes more. |
| FormatTrim.CameraDevice.IsSupported | hdmirx/HDMICameradevice/3.4/default/HdmirxCameraDeviceSession.cpp:2086-2093 | A size is accepted if and only if a format has it, and then it can be cropped from the largest. |
| IntermediateBuffers.OutputThread.AllocateIntermediateBuffers | hdmirx/HDMICameradevice/3.4/default/HdmirxCameraDeviceSession.cpp:1797-1872 | The exact success condition; then every stream size but the input's has its frame and no other size has a new one or an unconfigured one. |
| IntermediateBuffers.OutputThread.AddBuffers | hdmirx/HDMICameradevice/3.4/default/HdmirxCameraDeviceSession.cpp:1834-1850 | The first loop: one frame for each new even size. |
| IntermediateBuffers.OutputThread.RemoveUnconfigured | hdmirx/HDMICameradevice/3.4/default/HdmirxCameraDeviceSession.cpp:1852-1868 | The second loop: only configured sizes stay. |
| IntermediateBuffers.OutputThread.CropAndScaleLocked | hdmirx/HDMICameradevice/3.4/default/HdmirxCameraDeviceSession.cpp:1165-1249 | The code ends as the cascade of checks says, and only a scaled frame joins those in use. |
| IntermediateBuffers.OutcomeExactly | hdmirx/HDMICameradevice/3.4/default/HdmirxCameraDeviceSession.cpp:1165-1249 | Which check stops the step, told by sizes, cropping type and the frames at hand, each exactly; and the size that comes out. |
| IntermediateBuffers.NeverMissing | hdmirx/HDMICameradevice/3.4/default/HdmirxCameraDeviceSession.cpp:1198-1210 | No intermediate frame is missing for a configured stream. |
| IntermediateBuffers.SupportedStreamsComeOut | hdmirx/HDMICameradevice/3.4/default/HdmirxCameraDeviceSession.cpp:1174-1249 | From the largest supported even size every supported even stream size comes out whole unless libyuv refuses to scale. |
| IntermediateBuffers.UnscaledSize | hdmirx/HDMICameradevice/3.4/default/HdmirxCameraDeviceSession.cpp:1191-1196 | Where no scaling is done, the crop has the output's size unless the ratios are close. |
| IntermediateBuffers.RetryAfterOddSize | hdmirx/HDMICameradevice/3.4/default/HdmirxCameraDeviceSession.cpp:1808-1818 | An odd input size is refused the first time only: the second call succeeds with a frame that has no data. |
| JpegRows.PaddedIsLeast | hdmirx/HDMICameradevice/3.4/default/HdmirxCameraUtils.cpp:503-504 | The padded height is the least multiple of 16 that the height fits into. |
| JpegRows.BuildRows | hdmirx/HDMICameradevice/3.4/default/HdmirxCameraUtils.cpp:508-528 | Every luma and chroma row is the clamped input row. |
| JpegRows.RowsInPicture | hdmirx/HDMICameradevice/3.4/default/HdmirxCameraUtils.cpp:516-528 | Rows inside the picture are themselves, every row below repeats the last; all lie in the planes of an even height. |
| JpegRows.ChromaInPlaneExactly | hdmirx/HDMICameradevice/3.4/default/HdmirxCameraUtils.cpp:522-527 | The chroma rows stay inside their planes if and only if the height is even. |
| JpegRows.WriteRows | hdmirx/HDMICameradevice/3.4/default/HdmirxCameraUtils.cpp:537-554 | All batches in range; when each is taken the compressor has got every padded row in order, once; it fails exactly if a batch is cut short. |
| ColorMode.FormOf4k60 | hdmi/MtkHdmiService.cpp:1102-1172 | 4k at 50 to 60 Hz is 4:2:0 exactly where the sink has it and Dolby Vision does not take 4k60, with the deepest depth that is asked for, declared there and within the rate; otherwise 4:2:2 without deep colour. |
| ColorMode.SpaceExactly | hdmi/MtkHdmiService.cpp:1184-1256 | In every other resolution, which space is chosen: the first of 4:4:4, RGB and 4:2:0 with the depth, or of 4:4:4, RGB and 4:2:2 without deep colour; RGB for 4:4:4 where asked; 4:2:2 for Dolby Vision. |
| ColorMode.DepthExactly | hdmi/MtkHdmiService.cpp:1184-1269 | And which depth: the deepest that is asked for and declared in any space, in 4k up to 30 Hz lowered to what a known rate carries, except in 4:2:0. |
| ColorMode.WithinRateAt4k30 | hdmi/MtkHdmiService.cpp:1257-1269 | 4k at up to 30 Hz outside 4:2:0 never has a deep colour above a known rate. |
| ColorMode.NeverDeeperThanAsked | hdmi/MtkHdmiService.cpp:1184-1249 | No answer is deeper than the depth asked for. |
| ColorMode.DepthGrowsWithRateExactly | hdmi/MtkHdmiService.cpp:1093-1271 | A higher rate lowers the depth if and only if it crosses 594, Dolby Vision takes 4k60 over there, and the sink takes the depth asked for, or 10 of 12 bits, in 4:2:0 at the lower rate. |
| ColorMode.DepthGrowsWithoutDolby | hdmi/MtkHdmiService.cpp:1093-1271 | Without Dolby Vision a higher rate never lowers the depth. |
| ColorMode.NotCopiedMattersExactly | hdmi/MtkHdmiService.cpp:1064-1085 | The fields that are not copied from the EDID change the answer exactly for low latency and version 2 sinks that take 4:2:0. |
| ColorMode.DeepColourIsDeclared | hdmi/MtkHdmiService.cpp:1184-1271 | A deep colour is one the sink declares for the space, unless RGB replaced 4:4:4 or the rate cut the depth. |
| ColorMode.CorrectionsCanBeUndeclared | hdmi/MtkHdmiService.cpp:1251-1269 | Each of those two corrections can choose a mode the sink does not declare. |
| ColorMode.IsMax4k30DoviSink | hdmi/MtkHdmiService.cpp:296-336 | True exactly for a Dolby Vision sink with no way to 4k60. |
| ColorMode.ChooseMode | hdmi/MtkHdmiService.cpp:1093-1271 | The cascade computes the specified best mode. |
| ColorMode.ChooseDPMode | hdmi/MtkHdmiService.cpp:1412-1590 | So does the second cascade. |
| ColorMode.MtkHdmiService.FindBestMode | hdmi/MtkHdmiService.cpp:1034-1271 | The best mode for the HDMI sink's EDID, plain RGB without one. |
| ColorMode.MtkHdmiService.FindDPBestMode | hdmi/MtkHdmiService.cpp:1372-1590 | The same function of the DisplayPort sink's EDID. |
| ColorMode.MtkHdmiService.GetSuitableResolution | hdmi/MtkHdmiService.cpp:354-391 | The first preferred resolution that the sink declares, 480p without an EDID, the request if there is none; no table is overrun. |
| ColorMode.PreferredExactly | hdmi/MtkHdmiService.cpp:354-391 | The preferred resolutions are exactly those the sink can declare but number 12. |
| CecFrame.RoundTripExactly | hdmi_cec/service/1.0/HdmiCec.h:66-83 | A message that passes the guard comes back unchanged if and only if both addresses have four bits and the receiver takes its length. |
| CecFrame.GuardIsEnough | hdmi_cec/service/1.0/HdmiCec.cpp:312-328 | With a limit of 15 every such message fits the 16-byte frame and comes back. |
| CecFrame.LongBodyIsCut | hdmi_cec/service/1.0/HdmiCec.h:69-78 | A longer body is cut at the limit and nothing else is lost. |
| CecFrame.FrameRoundTrip | hdmi_cec/src/hwcec.cpp:176-182 | A received frame, sent again, is the same frame. |
| CecFrame.ResultIgnoresBusExactly | hdmi_cec/src/hwcec.cpp:757-785 | Success is reported whatever the bus says if and only if the first operand is 0xff. |
| CecFrame.SendMessage | hdmi_cec/service/1.0/HdmiCec.cpp:312-328 | Too long a body is refused, a closed device answers NACK, otherwise the frame of the message is sent and the driver's answer mapped. |
| CecFrame.MediatorSend | hdmi_cec/src/hwcec.cpp:730-787 | The frame is the two addresses in one byte, the body and zeros, with the length; status 1 is success, 2 busy and 4 not acknowledged, and a first operand 0xff is success whatever the status. |
| CecFrame.ReceiveFrame | hdmi_cec/src/hwcec.cpp:161-187 | The two copies give the message: the halves of the first byte as addresses, and the body as far as frame and limit go. |
| CecUevent.ScanUnpacks | hdmi_cec/src/hwcec.cpp:1061-1077 | The scan gives back the packed fields up to the first empty one. |
| CecUevent.EventActs | hdmi_cec/src/hwcec.cpp:1039-1096 | An event for a device does what its last matching field before the first empty one says. |
| CecUevent.LastStateExactly | hdmi_cec/src/hwcec.cpp:1061-1077 | The state is the number behind the property in the last field that has it before the first empty one. |
| CecUevent.NoStateExactly | hdmi_cec/src/hwcec.cpp:1061-1077 | There is none if and only if every field with the property comes after an empty one. |
| CecUevent.AtoiReads | hdmi_cec/src/hwcec.cpp:1066-1077 | A decimal number is read back, with or without a sign, up to the first other character. |
| CecUevent.Strlen | hdmi_cec/src/hwcec.cpp:1063-1063 | The end of a string is the first zero, inside the buffer. |
| CecUevent.ScanField | hdmi_cec/src/hwcec.cpp:1066-1077 | One turn of the scan: the next start is behind the field and never past the two reserved zeros. |
| CecUevent.ScanFields | hdmi_cec/src/hwcec.cpp:1061-1077 | The loop ends and its state is that of the last matching field. |
| CecUevent.HandleCecUEvents | hdmi_cec/src/hwcec.cpp:1039-1096 | The first device with the node, and the action: for a playback device 1 plugs in and 0 out, for a TV 11 and 12, and nothing for any other state. |
| CecHotplug.HWCECMediator.GetPhysicalAddress | hdmi_cec/src/hwcec.cpp:696-728 | The address read, the stale one if the device is closed. |
| CecHotplug.HWCECMediator.HandlePlugIn | hdmi_cec/src/hwcec.cpp:959-1017 | "Connected" is reported exactly when the address read differs from `mPrePA`; what is remembered is that address, or the one read again to wake the TV. |
| CecHotplug.HWCECMediator.HandlePlugOut | hdmi_cec/src/hwcec.cpp:1019-1037 | Always reported; a playback device forgets both addresses. |
| CecHotplug.HWCECMediator.Run | hdmi_cec/src/hwcec.cpp:959-1037 | Over any run of a playback device the reports are the specified ones. |
| CecHotplug.ToldExactly | hdmi_cec/src/hwcec.cpp:965-990 | A plug in is reported if and only if its address is not the one the plug in before it left, or is valid after a plug out. |
| CecHotplug.FirstToldExactly | hdmi_cec/src/hwcec.cpp:211-214 | The first of all is reported if and only if its address is not 0xFFFF. |
| CecHotplug.ToldAfterUnplug | hdmi_cec/src/hwcec.cpp:1031-1035 | After an unplug nothing is reported until an address is valid, and that one always is. |
| CecHotplug.RepeatToldExactly | hdmi_cec/src/hwcec.cpp:968-990 | The same address is reported again only if waking the TV read another one in between. |
| CecHotplug.OutsAreTold | hdmi_cec/src/hwcec.cpp:1019-1030 | Over any run, as many plug outs are reported as there are, and as many plug ins as are news. |

## Left out

- HIDL plumbing, ioctls, sockets, polling, files, properties and key handling: their answers are inputs.
- MDP, gralloc, libyuv, libjpeg and EXIF internals: success or failure and the sizes passed are modelled.
- The fence timeout of the online worker (hdmirx/HDMICameradevice/3.4/default/HdmirxCameraDeviceSession.cpp:1737-1741): it clears the request and goes on to use it; the wait is taken to succeed.
- Closing of fence descriptors: not every path closes them, and the model does not follow them.
- V4L2 dequeueing, streaming and the frame copy of the offline switch: no HDMI path reaches them.
- The give-up of the result lock after a second, and failure of `native_handle_create`: taken not to happen.
- Time in condition waits: a wait ends by its signal or by a timeout that may come at any moment.
- `fillOfflineSessionInfo`: it copies ids and would add easy members.
- Frame rate selection in `updateFpsBounds`: the candidate lists are inputs of the format choice.
- The refusal of more than one offline stream: the partition is proved for any list of them.
- The area check against the thumbnail frame (hdmirx/HDMICameradevice/3.4/default/HdmirxCameraDeviceSession.cpp:1256-1262): one comparison.
- Static metadata, XML configuration, vendor tags, tv_input and the hdmirx/lib wrappers.
- MaxLength::MESSAGE_BODY and CEC_MESSAGE_BODY_MAX_LENGTH come from headers outside the repository, which are not part of this model: the first is a parameter, the second is taken as 16.
- The failure to stop V4L2 streaming in `switchToOffline` (hdmirx/HDMICameradevice/3.6/default/HdmirxCameraDeviceSession.cpp:340-344): the HDMI path never starts it.
- BufferRequestSession.BufferRequestThread.ThreadLoop: is stated for a worker that is not woken without a batch during the turn; BufferRequest.BatchStaysPut, BufferRequest.FooledTakesTwo and BufferRequest.StaleNotifyOverruns say what happens then.
- GrallocSession.Session.ClaimBuffer: is stated for a request that holds no slot, which GrallocLife.ClaimIsFresh proves of every call.
- BufferSessions.Session.ConfigureStreams: is stated for maps with equal domains; BufferOwnership has the step for others too.
- BufferSessions.Session.SwitchToOffline: is stated for the device session alone with its new offline session; BufferOwnership has any number of earlier ones, which the code does not touch.
- CropGeometry.AllocatedFrame.GetCroppedLayout: does not model 32-bit wrap-around of the offsets, which CropGeometry.FrameBytesExactly rules out, nor rectangles with a negative corner, which no caller passes.
- CropGeometry.ThumbCropIsRight: uses exact scale factors, where the source rounds to float.
- ColorMode.MtkHdmiService.FindBestMode: models the build with DRM HDMI support, in which the EDID is copied field by field.
- CecUevent.HandleCecUEvents: does not model numbers beyond the range of `int` in a state field.
