# Camera, recorder and player command models

A Dafny model of the state machines, containers and codecs in three parts of the Android media
framework: the camera client library (`camera/`), the `screenrecord` tool (`cmds/screenrecord/`) and the
`stagefright` tools (`cmds/stagefright/`). `dafny verify dfyconfig.toml` checks all of it.

Code that changes things step by step is modelled by classes and methods with loops. Each is proved equal
to a function on values, and the properties are theorems about those functions, about whole runs of them,
or about pairs of them that undo each other. What such a function leaves is also stated in the fields or the
literals themselves, operation by operation.

- **SimplePlayer** (`TrackSelection`, `PlayerTrack`, `PlayerAudio`, `Player`, `PlayerFields`, `PlayerRuns`): a
  message-driven player. Clients post messages at any time and any message in flight may be delivered next. Codecs and audio
  tracks are an environment that answers as it likes within its contract. A failed check aborts the process,
  and no state follows.
- **Overlay** (`Overlay`, `DroppedFrames`): a start/stop/frame handshake over one mutex and two condition
  variables, as a machine whose runs are all interleavings, spurious wakeups included.
- **CameraMetadata** (`MetadataBuffer`, `CameraMetadata`, `MetadataOwnership`,
  `MetadataContents`, `Alignment`, `MetadataParcel`, `PlainLibrary`): unique ownership, locking, growth, and
  an aligned blob in a parcel.
- **Capture requests** (`Parcel`, `CaptureRequest`): lists of optional requests through a binder parcel.
- **Vendor tags** (`SortedNames`, `VendorTags`, `VendorTagParcel`, `VendorTagRoundTrip`,
  `VendorTagDescriptor`): three forward maps and a two-level reverse index, built from operations or from
  a parcel.
- **Camera parameters** (`Parameters`, `SortedParameters`, `Numbers`, `Sizes`, `CameraParameters`): the
  text form of two parameter containers, set order, and integers, pairs and size lists in values.
- **Algorithms**: text wrapping (`TextWrap`, `WrapEnds`, `GlyphTexture`), AVC configuration records (`Avcc`), trimming
  (`Trim`), decode-time histogram (`Histogram`), first-IDR filtering (`DetectSync`), pixel reduction and
  framing (`Frames`).

`Wrappers`, `Sequences`, `Powers`, `CameraStatus` and `Arithmetic` hold what the others share.

Where the code does not keep what its comments or names promise, the code is modelled as it is, and a
theorem says exactly when the promise holds:

- `stop()` on an overlay that was never started, or whose thread has ended, leaves STOPPING behind
  (`OverlayProtocol.NeverStartedIff`, `OverlayProtocol.DestructorIff`, `OverlayProtocol.StatesAdvanceIff`),
  although the header calls it okay.
- `renderAudio` aborts the process when it is about to write a part of a frame, because the AudioTrack takes
  whole frames only (`PlayerAudio.RenderAudioAbortsIff`).
- A first frame numbered zero hides the frames dropped right after it (`DroppedFrames.TotalIsMissingIff`).
- `CameraMetadata::writeToParcel` reports success when the blob could not be written, and announces blobs
  of 2^31 bytes or more by a wrong size (`MetadataParcel.MetadataRoundTripIff`).
- Vendor operations may give empty names and repeat tags; the parcel then cannot be read back. Tags that
  share name and section are resolved by list order on one side and by tag on the other
  (`VendorTagRoundTrip.WholeDescriptorIff`).
- `CameraParameters2::unflatten` keeps repeated keys, and a later `set` of such a key is hidden
  (`Parameters.SetThenGetIff`). `removeItem` compares an unsigned index with zero; a missing key is
  rejected further down, by the vector, as out of range.
- `parse_pair` takes missing numbers for zeros, on either side (`Sizes.PairAcceptedIff`,
  `Sizes.MissingNumbersAreZero`).
- The comment in `breakString` has the caller not advance for an empty string; the caller draws an empty line
  and moves down. It happens for the empty string, and behind whitespace that alone does not fit
  (`WrapEnds.EmptyLineNeedsSpace`, `WrapEnds.EmptyLineIff`; `WrapEnds.EmptyLineIsDrawn` is an example).
- A last glyph too wide for its line makes the loop take the terminator for whitespace (`TextWrap.OverrunIff`,
  and for strings that end in whitespace `WrapEnds.OverrunBehindSpaceIff`).
- Trimming can write several stretches, each starting from zero, when times are out of order
  (`Trim.OneStretchIff`; `Trim.DisorderRestartsTheClock` is an example).

## Model

| member | source | states |
|---|---|---|
| PlayerRuns.OneLivePump | cmds/stagefright/SimplePlayer.cpp:170-264 | In every state that any posting, delaying and reordering of messages can reach, exactly one in-flight pump message carries the current generation when the player is STARTED, and none otherwise |
| PlayerRuns.PumpRunsOnlyWhileStarted | cmds/stagefright/SimplePlayer.cpp:249-264 | In every reachable state a pump message in flight can pass the generation check only while the player is STARTED |
| PlayerRuns.StaleMessagesDrain | cmds/stagefright/SimplePlayer.cpp:254-256 | A message of an old generation changes nothing when it arrives, is not posted again, and no step creates another one: stale pumps only ever become fewer |
| PlayerRuns.ControlEffect | cmds/stagefright/SimplePlayer.cpp:106-247 | Every control message does one of three things: leaves state-is-STARTED and the counter alone, stops (counter up, nothing posted), or starts (counter up, one pump posted with the new value) |
| PlayerRuns.RunKeeps | cmds/stagefright/SimplePlayer.cpp:106-269 | The pump, ownership, byte, frame and feed invariants hold together after every allowed run that no failed check has aborted |
| PlayerRuns.WholeFramesKeepAlive | cmds/stagefright/SimplePlayer.cpp:515-562 | A player whose codecs deliver whole frames is never aborted by the check behind AudioTrack::write, in any run |
| PlayerRuns.BuffersAreOwnedOnce | cmds/stagefright/SimplePlayer.cpp:417-566 | In every reachable state the indices in the two avail lists are distinct and are exactly those dequeued and not yet given back, and buffers went back in the order they came, on each track |
| PlayerRuns.BytesAreWrittenOnce | cmds/stagefright/SimplePlayer.cpp:532-546 | In every reachable state what the AudioTrack was given is a gapless prefix of each output buffer, in order and once, and a buffer that left by the audio render path was written to its end |
| PlayerRuns.AudioNeverOverflows | cmds/stagefright/SimplePlayer.cpp:599-647 | In every reachable state, for buffers of any size, frames written less frames played stays between zero and frameCount, and the 32-bit counter is the true count modulo 2^32 |
| PlayerTrack.Outstanding | cmds/stagefright/SimplePlayer.cpp:425-495 | The held index lists are, as multisets, what the codec has handed out less what it got back |
| PlayerTrack.InOrder | cmds/stagefright/SimplePlayer.cpp:549-553 | Output buffers are given back in the order in which they were dequeued |
| PlayerTrack.RenderOutputKeeps | cmds/stagefright/SimplePlayer.cpp:515-563 | The render loop, with its early, late, partly written and video cases, keeps ownership and order for any clock and any progress of the hardware |
| PlayerTrack.RenderFollowsTheClock | cmds/stagefright/SimplePlayer.cpp:518-562 | One pass drops exactly what is more than 30 ms late, renders what is due, and stops only where nothing is left, the next buffer is early, or the audio track took a part of it |
| PlayerAudio.AvailableIsExact | cmds/stagefright/SimplePlayer.cpp:610-615 | The wrapping 32-bit subtraction yields exactly the room that is left in the track, whatever the absolute counts are |
| PlayerAudio.CountedWrite | cmds/stagefright/SimplePlayer.cpp:617-646 | A write of whole frames that fit keeps the counter exact and the track within its capacity, whatever is left of the buffer |
| PlayerAudio.WrittenGrows | cmds/stagefright/SimplePlayer.cpp:628-644 | Each write extends the written prefix of its own buffer and of no other |
| PlayerAudio.RenderAudioAbortsIff | cmds/stagefright/SimplePlayer.cpp:610-633 | renderAudio aborts the process if and only if the buffer ends in a part of a frame and the track has room for its whole frames and one more |
| PlayerRuns.OddBytesAbort | cmds/stagefright/SimplePlayer.cpp:106-269 | A run of five steps reaches the abort: a started player is given a three-byte buffer that is due on a track of four-byte frames |
| Player.SimplePlayer.WriteFrames | media/libmedia/AudioTrack.cpp:1588-1636 | However many frames each obtainBuffer grants, a blocking write takes the whole frames among the bytes it is given and no others |
| Player.SimplePlayer.OnMessageReceived | cmds/stagefright/SimplePlayer.cpp:106-269 | Each of the seven messages changes the fields, posts and replies as the transition relation of the run theorems says, in all states and for any outcome of preparing |
| PlayerFields.SettersInFields | cmds/stagefright/SimplePlayer.cpp:108-146 | The data source is accepted exactly when UNINITIALIZED and the surface exactly when UNPREPARED, and nothing but the state changes |
| PlayerFields.PrepareInFields | cmds/stagefright/SimplePlayer.cpp:148-168 | Preparing happens exactly when UNPREPARED, answers with its status, and only a good one leads to STOPPED, at the first sample |
| PlayerFields.StartInFields | cmds/stagefright/SimplePlayer.cpp:170-201 | A player starts exactly when it is STOPPED, or UNPREPARED and preparing succeeds: STARTED, generation raised, start time forgotten, one pump posted |
| PlayerFields.StopInFields | cmds/stagefright/SimplePlayer.cpp:203-224 | Stopping happens exactly when STARTED, and changes the state and the generation only |
| PlayerFields.ResetInFields | cmds/stagefright/SimplePlayer.cpp:226-247 | A prepared player forgets tracks, samples and start time; only a running one raises the generation; the reply is always OK |
| PlayerFields.PumpInFields | cmds/stagefright/SimplePlayer.cpp:249-264 | A current pump is posted again and keeps state and generation; a start time once set is kept, otherwise it is one second from now |
| Player.SimplePlayer.OnPrepare | cmds/stagefright/SimplePlayer.cpp:271-375 | A failing data source changes nothing; otherwise each selected track starts with no held buffers and with its codec-specific data queued once |
| PlayerFields.PreparedInFields | cmds/stagefright/SimplePlayer.cpp:289-371 | The tracks are those of the first audio and first video track in track order, with exactly their codec-specific data dequeued and queued, and nothing else held |
| TrackSelection.SelectTracks | cmds/stagefright/SimplePlayer.cpp:289-307 | The loop with its two flags selects exactly the first track of each kind asked for, in track order |
| TrackSelection.SelectedIff | cmds/stagefright/SimplePlayer.cpp:289-307 | The indices selected ascend, and are exactly those of audio and video tracks asked for that no track of their kind precedes |
| TrackSelection.OneOfEachKind | cmds/stagefright/muxer.cpp:104-118 | There is one selected track of a kind if the file has such a track and it was asked for, and never two |
| Player.SimplePlayer.QueueCsd | cmds/stagefright/SimplePlayer.cpp:351-371 | Every piece of codec-specific data is queued in the buffer dequeued for it, and none stays held |
| Player.SimplePlayer.OnStart | cmds/stagefright/SimplePlayer.cpp:377-387 | The start time is forgotten, and the one message posted carries the new generation |
| Player.SimplePlayer.OnStop | cmds/stagefright/SimplePlayer.cpp:389-395 | Only the generation moves |
| Player.SimplePlayer.OnReset | cmds/stagefright/SimplePlayer.cpp:397-415 | All tracks, samples and the start time are forgotten; the generation is not |
| Player.SimplePlayer.OnDoMoreStuff | cmds/stagefright/SimplePlayer.cpp:417-566 | One pump iteration refines drain, feed and render in that order, with the start time fixed at the first iteration |
| Player.SimplePlayer.DrainTrack | cmds/stagefright/SimplePlayer.cpp:422-464 | The two dequeue loops append everything the codec answers, in order, and a format change to audio restarts the frame count |
| PlayerFields.DrainedInFields | cmds/stagefright/SimplePlayer.cpp:422-464 | All input indices and all output buffers answered stand behind those held, in order; the last audio format gives the AudioTrack and restarts the count; nothing else changes |
| Player.SimplePlayer.Feed | cmds/stagefright/SimplePlayer.cpp:467-507 | Feeding stops only where no sample is left or the track of the next one holds no input buffer |
| PlayerFields.FedInFields | cmds/stagefright/SimplePlayer.cpp:467-507 | Every sample that was passed was queued on its own track with the oldest input buffer, in order, and nothing is left that could be fed |
| PlayerFields.PumpStages | cmds/stagefright/SimplePlayer.cpp:417-566 | In one iteration each track is drained, then the samples are fed until nothing can be, then each track is rendered by one clock |
| Player.SimplePlayer.RenderTrack | cmds/stagefright/SimplePlayer.cpp:515-563 | The nested render loop equals its recursive specification for any clock and hardware progress |
| Player.SimplePlayer.RenderAudioBuffer | cmds/stagefright/SimplePlayer.cpp:599-647 | renderAudio, with 32-bit wrap-around and the abort where not every byte was taken, equals the step the accounting lemmas are about |
| PlayerFields.RenderAudioInFields | cmds/stagefright/SimplePlayer.cpp:599-647 | Of the oldest buffer exactly as many bytes as fit the track are written, from its offset on; offset, size, frame count and what the track was given move by those |
| PlayerFields.RenderedByTheTrack | cmds/stagefright/SimplePlayer.cpp:528-541 | Rendering leaves the input side alone, and a buffer is rendered by way of the AudioTrack exactly when the track has one |
| OverlayProtocol.InvHolds | cmds/screenrecord/Overlay.cpp:58-132 | Every disciplined interleaving, spurious wakeups included, stays inside the invariant that ties mutex holder, wait sets, state and flags together |
| OverlayProtocol.CallsAreFree | cmds/screenrecord/Overlay.cpp:58-132 | Calls, callbacks, spurious wakeups and both outcomes of the set-up can come at any time the mutex allows |
| OverlayProtocol.MutexIsFree | cmds/screenrecord/Overlay.cpp:58-132 | Whoever waits for the free mutex can take it |
| OverlayProtocol.HolderCanGoOn | cmds/screenrecord/Overlay.cpp:58-132 | Whoever holds the mutex has a next action |
| OverlayProtocol.HandshakeIsSafe | cmds/screenrecord/Overlay.cpp:117-131 | In every reachable state a sleeping worker with STOPPING or a flagged frame has a wakeup due, a worker that leaves its loop leaves no flag set, and a starter asleep after INIT has a broadcast coming |
| OverlayProtocol.AnnouncedFrameIsProcessed | cmds/screenrecord/Overlay.cpp:119-127 | Whenever the worker leaves its loop, each onFrameAvailable before was followed by a worker action that found the flag set and processed a frame |
| OverlayProtocol.StartReturns | cmds/screenrecord/Overlay.cpp:58-90 | start() returns with RUNNING and success or with STOPPED and an error, and with nothing else |
| OverlayProtocol.StatesAdvanceIff | cmds/screenrecord/Overlay.h:110-112 | Over every disciplined run the state advances from left to right if and only if no stop() writes after STOPPED |
| OverlayProtocol.OneStopAdvancesIff | cmds/screenrecord/Overlay.h:110-112 | A client that stops at most once sees the state move left if and only if it does so after a start() that failed |
| OverlayProtocol.LeftMove | cmds/screenrecord/Overlay.cpp:92-98 | The only statement that ever moves the state left is the assignment in stop(), and only on STOPPED |
| OverlayProtocol.SecondStopMovesLeft | cmds/screenrecord/Overlay.cpp:92-98 | A run within the discipline (start, stop, end of thread, stop) that does move it left |
| OverlayProtocol.NeverStartedIff | cmds/screenrecord/Overlay.h:61-74 | An overlay that was never started may be destroyed, after any run, if and only if stop() was never called on it |
| OverlayProtocol.DestructorIff | cmds/screenrecord/Overlay.h:74 | In every run that ends the thread, with stop() called after any return of start(), the destructor assertion holds if and only if no stop() wrote over STOPPED, that is, if and only if the state never moved left |
| OverlayProtocol.StopIsAnswered | cmds/screenrecord/Overlay.cpp:117-131 | After stop(), every action of the worker brings it closer to its end, none takes it back, and unless a signal is due it can act |
| OverlayProtocol.StopEndsTheWorker | cmds/screenrecord/Overlay.cpp:117-131 | In every run after stop() the worker takes at most as many actions as it is away from its end, and when it has taken them it is done |
| OverlayProtocol.StopCanEnd | cmds/screenrecord/Overlay.cpp:92-131 | From every state after stop() some run without a spurious wakeup brings the worker to its end |
| DroppedFrames.TotalIsMissingIff | cmds/screenrecord/Overlay.cpp:204-211 | The dropped-frame total equals the frames missing between first and last if and only if the first number is not zero or nothing is missing right after it |
| DroppedFrames.TotalFrom | cmds/screenrecord/Overlay.cpp:204-211 | The total for every increasing sequence of frame numbers, in closed form |
| DroppedFrames.ZeroHidesDrops | cmds/screenrecord/Overlay.cpp:208-210 | Frame 0 followed by frame 5: four frames are missing and none is counted |
| DroppedFrames.FrameCounter.ProcessFrame | cmds/screenrecord/Overlay.cpp:204-211 | The two guarded fields step as the sequence theorem assumes |
| MetadataBuffer.ResizeMakesRoom | camera/CameraMetadata.cpp:400-436 | A resize keeps the entries and makes both requests fit, and reallocates only when one of them did not |
| MetadataBuffer.NeverFailsForRoom | camera/CameraMetadata.cpp:138-152 | After the resize that precedes it, no update or append fails for want of room |
| MetadataBuffer.OpKeepsValid | camera/CameraMetadata.cpp:280-335 | Every operation keeps entries and data within their capacities |
| MetadataBuffer.UpdateIsFound | camera/CameraMetadata.cpp:280-335 | After an update, find answers with the new data, whether the tag was there or not |
| MetadataBuffer.AppendInFields | camera/CameraMetadata.cpp:138-152 | An append always succeeds and leaves the entries before, followed by all of the others |
| MetadataBuffer.EraseInFields | camera/CameraMetadata.cpp:366-394 | An erase takes exactly the first entry with the tag, wherever it stands, and nothing where there is none |
| MetadataBuffer.SortInFields | camera/CameraMetadata.cpp:163-169 | A sort leaves exactly the arrangement that the library made |
| MetadataBuffer.GrownInFields | camera/CameraMetadata.cpp:400-436 | Update and append leave twice the request as capacity where it did not fit, and the capacity there was where it did |
| MetadataBuffer.EraseUndoesUpdate | camera/CameraMetadata.cpp:280-394 | Erasing a tag that an update added leaves the entries as they were |
| MetadataBuffer.DataCountOfPermutation | camera/CameraMetadata.cpp:163-169 | Sorting cannot change how much data is used |
| MetadataBuffer.GrowthIsLogarithmic | camera/CameraMetadata.cpp:400-436 | Over any run of update, append, erase and sort from any capacities, 2^k for k growths of either capacity is at most the peak request plus one |
| MetadataOwnership.OneOwnerAlways | camera/CameraMetadata.cpp:54-136 | Over any run of construct, assign, acquire, release, swap, clear, read and destroy on any set of objects, each live buffer has exactly one owner and each freed one was freed once |
| MetadataOwnership.NothingLeaks | camera/CameraMetadata.cpp:72-136 | When all objects are gone and the caller owns nothing, no buffer is live and every one was freed |
| MetadataOwnership.LockProtects | camera/CameraMetadata.cpp:77-136 | No step except its matching unlock and its destruction changes a locked object, its buffer pointer or the contents |
| MetadataOwnership.LockedIsStable | camera/CameraMetadata.cpp:77-94 | The same over whole runs between getAndLock and the matching unlock |
| MetadataOwnership.LockedRefuses | camera/CameraMetadata.cpp:96-152 | Called on the locked object itself, every such operation gives up without effect |
| MetadataOwnership.OthersLeaveAlone | camera/CameraMetadata.cpp:668-682 | Called on other objects, no operation reaches a locked object or its buffer |
| MetadataContents.ModifyIsAfter | camera/CameraMetadata.cpp:138-169 | What update, append, erase and sort do to an unlocked object's content is what the growth theorems say of a buffer |
| MetadataContents.ModifyStatus | camera/CameraMetadata.cpp:138-169 | Their status: a locked object refuses, an update or append always succeeds, the others need a buffer |
| MetadataContents.LockThenUnlock | camera/CameraMetadata.cpp:77-94 | Unlocking with the pointer that getAndLock gave restores everything; with any other the lock stays |
| MetadataContents.ConstructedInFields | camera/CameraMetadata.cpp:30-52 | What each constructor makes: nothing, an empty buffer of the sizes asked for, a copy of its own, or the buffer that was given |
| MetadataContents.AssignRawInFields | camera/CameraMetadata.cpp:58-70 | Assigning a raw buffer copies it, null empties the object |
| MetadataContents.CallerInFields | camera/CameraMetadata.cpp:96-128 | Raw buffers are the caller's from allocation to free |
| MetadataContents.FreedInFields | camera/CameraMetadata.cpp:72-75 | The destructor frees the buffer even of a locked object; clear does so unless locked |
| MetadataContents.ReadInFields | camera/CameraMetadata.cpp:624-654 | A good parcel replaces the content, a null one empties the object, a bad one changes nothing |
| MetadataContents.AssignCopies | camera/CameraMetadata.cpp:54-70 | Assignment gives the object a copy of its own; the source keeps its buffer and content |
| MetadataContents.AcquireMoves | camera/CameraMetadata.cpp:130-136 | acquire moves buffer and content over and leaves the other object without one |
| MetadataContents.SwapExchanges | camera/CameraMetadata.cpp:668-682 | swap exchanges the contents of unlocked objects without touching any buffer |
| MetadataContents.ReleaseThenAcquire | camera/CameraMetadata.cpp:96-128 | A buffer that was released and acquired again restores object, heap and caller |
| CameraMetadataModel.CameraMetadata.ClearBuffer | camera/CameraMetadata.cpp:106-115 | The buffer is freed and forgotten unless the object is locked |
| CameraMetadataModel.CameraMetadata.AssignFrom | camera/CameraMetadata.cpp:54-70 | The new buffer is cloned before the old one is freed; assigning an object its own buffer does nothing |
| CameraMetadataModel.CameraMetadata.ReleaseBuffer | camera/CameraMetadata.cpp:96-104 | Ownership passes to the caller unless locked |
| CameraMetadataModel.CameraMetadata.AcquireBuffer | camera/CameraMetadata.cpp:117-128 | The old buffer is freed and the given one owned, unless locked |
| CameraMetadataModel.CameraMetadata.AcquireFrom | camera/CameraMetadata.cpp:130-136 | Ownership moves between objects; an object that acquires from itself keeps its buffer |
| CameraMetadataModel.CameraMetadata.Swap | camera/CameraMetadata.cpp:668-682 | Buffers are exchanged exactly when neither side is locked; locks stay |
| CameraMetadataModel.CameraMetadata.GetAndLock | camera/CameraMetadata.cpp:77-80 | Locks without touching the buffer |
| CameraMetadataModel.CameraMetadata.UnlockWith | camera/CameraMetadata.cpp:82-94 | Unlocked exactly by the pointer of the buffer; INVALID_OPERATION when not locked, BAD_VALUE for another pointer, OK otherwise; the buffer stays |
| CameraMetadataModel.CameraMetadata.ReadFrom | camera/CameraMetadata.cpp:624-654 | A failed or refused read leaves the object as it was; a good one replaces the buffer and frees the old one |
| CameraMetadataModel.CameraMetadata.ResizeIfNeeded | camera/CameraMetadata.cpp:400-436 | The reallocation, with allocate, copy and free in the original order, is the growth step of the theorems |
| CameraMetadataModel.CameraMetadata.ModifyWith | camera/CameraMetadata.cpp:138-169 | Lock check, resize and library call combine as the run theorems assume; a null buffer fails |
| Alignment.ClearsLowBits | camera/CameraMetadata.cpp:529-622 | Masking with the complement of 2^k - 1 is subtraction of the remainder, bit by bit, at any word size |
| Alignment.AlignedOffset | camera/CameraMetadata.cpp:529-622 | For every address and power-of-two alignment the computed offset is below the alignment and leads to a multiple of it, wrap-around of the address included |
| MetadataParcel.RegionLiesInBlob | camera/CameraMetadata.cpp:529-622 | The metadata lies inside the blob at an aligned address and is not overwritten by anything |
| MetadataParcel.MetadataRoundTripIff | camera/CameraMetadata.cpp:438-622 | Reading back what was written, before any suffix, restores the metadata and leaves the suffix, if and only if the blob was granted and is smaller than 2^31 bytes |
| MetadataParcel.UnsentIsNotReceived | camera/CameraMetadata.cpp:529-622 | When it was not sendable, no reader gets that metadata, although the writer reported success |
| MetadataParcel.EncodedInItems | camera/CameraMetadata.cpp:514-622 | The items are the size, the blob with the metadata aligned in it, and the offset; a zero stands for null metadata |
| MetadataParcel.DecodedInItems | camera/CameraMetadata.cpp:438-512 | What is read from a size, a blob and an offset, and the first check that fails |
| MetadataParcel.MissingItems | camera/CameraMetadata.cpp:438-512 | The error for each item that is missing |
| MetadataParcel.WriteToParcel | camera/CameraMetadata.cpp:529-622 | The writer appends size, aligned blob and offset, and reports success even where the blob failed |
| MetadataParcel.ReadFromParcel | camera/CameraMetadata.cpp:438-527 | The reader accepts exactly the parcels of the format, with the original error for each defect |
| CaptureRequests.RequestRoundTripIff | camera/camera2/CaptureRequest.cpp:29-131 | One request with any surfaces, null ones included, survives before any suffix if and only if its metadata is sendable |
| CaptureRequests.RequestInItems | camera/camera2/CaptureRequest.cpp:29-131 | The items of a request with two surfaces, one by one |
| CaptureRequests.SkippedSurface | camera/camera2/CaptureRequest.cpp:29-90 | An entry without class name is skipped, a surface without binder is kept |
| CaptureRequests.ListRoundTripIff | camera/camera2/ICameraDeviceUser.cpp:128-141 | The same for every list of optional requests |
| CaptureRequests.SubmissionRoundTripIff | camera/camera2/ICameraDeviceUser.cpp:122-145 | The service receives the list and the repeating flag the client submitted, and leaves any suffix, if and only if every metadata blob is sendable |
| CaptureRequests.SubmissionInItems | camera/camera2/ICameraDeviceUser.cpp:122-145 | The items of a list with one request and one null, one by one |
| CaptureRequests.BadListIsRefused | camera/camera2/ICameraDeviceUser.cpp:442-461 | One request that cannot be read makes the whole list BAD_VALUE |
| CaptureRequests.CaptureRequest.WriteRequest | camera/camera2/CaptureRequest.cpp:94-131 | The writer appends metadata, surface count, surfaces with name and binder, and the reprocess flag |
| CaptureRequests.CaptureRequest.ReadRequest | camera/camera2/CaptureRequest.cpp:29-92 | The reader restores all fields and moves the cursor past the request, or fails as the decoder does |
| CaptureRequests.SubmitRequestList | camera/camera2/ICameraDeviceUser.cpp:122-145 | The loop over the list writes the encoding the round trip is about |
| CaptureRequests.ReceiveRequestList | camera/camera2/ICameraDeviceUser.cpp:442-461 | The decoding branch yields the decoded list, null where a request is missing, or BAD_VALUE |
| VendorTags.LookupFindsTheLast | camera/VendorTagDescriptor.cpp:126-133 | A lookup in the two-level index answers with the last row entered under that section and name, and with nothing when there is none |
| VendorTags.SameLookupsSameIndex | camera/VendorTagDescriptor.cpp:126-133 | Two indexes that answer all lookups alike are equal |
| VendorTags.SectionsAreSorted | camera/VendorTagDescriptor.cpp:102-115 | The section vector is sorted, holds exactly the sections of the tags, each once |
| VendorTags.BuiltIsConsistent | camera/VendorTagDescriptor.cpp:84-133 | The three forward maps share one key set, section indices are in range, tags and types are legal |
| VendorTags.AcceptedOpsIff | camera/VendorTagDescriptor.cpp:58-108 | Operations are accepted if and only if the count is not negative and each tag listed lies at or above 0x80000000 and has a name, a section and one of the six types; otherwise BAD_VALUE |
| VendorTags.BuiltInFields | camera/VendorTagDescriptor.cpp:84-133 | Every field of the descriptor that is built, in terms of the operations |
| SortedNames.LessIff | camera/VendorTagDescriptor.cpp:75 | The order of the section names is that of their first difference |
| VendorTags.GettersAnswerTheOps | camera/VendorTagDescriptor.cpp:267-289 | Name, section and type of every tag come back as the vendor gave them, and no others |
| VendorTags.LookupIsSound | camera/VendorTagDescriptor.cpp:331-348 | A tag that a lookup finds has that name and section; a lookup fails only when no tag has |
| VendorTags.AllFoundIffPairsDistinct | camera/VendorTagDescriptor.cpp:331-348 | Every tag is found by its own name and section if and only if no two tags share both |
| VendorTagParcel.CastsCancel | camera/VendorTagDescriptor.cpp:167-201 | A tag survives the casts to int32 and back |
| VendorTagParcel.AscendingIsSorted | camera/VendorTagDescriptor.cpp:302-314 | Tags are written in strictly ascending order |
| VendorTagParcel.EntriesAreRead | camera/VendorTagDescriptor.cpp:166-203 | The tag entries are read back whole, before anything, unless a name is empty |
| VendorTagParcel.SectionsAreRead | camera/VendorTagDescriptor.cpp:220-231 | The sorted sections are read back into the same vector unless one is empty |
| VendorTagParcel.DecodeOfEncode | camera/VendorTagDescriptor.cpp:139-325 | A descriptor with one tag per count is read back with equal forward maps and sections and the suffix left, or refused for an empty name or section |
| VendorTagParcel.LayoutInItems | camera/VendorTagDescriptor.cpp:291-325 | The items of a descriptor of two tags and two sections, one by one |
| VendorTagParcel.EntryInItems | camera/VendorTagDescriptor.cpp:164-196 | An entry is read exactly when number, type and name are legal; the first that is not decides the error |
| VendorTagParcel.SectionsInItems | camera/VendorTagDescriptor.cpp:201-222 | Too few sections, a section without a name, and no section at all |
| VendorTagParcel.CountInItems | camera/VendorTagDescriptor.cpp:139-162 | A missing or negative count is refused, a count of zero makes an empty descriptor |
| VendorTagRoundTrip.RoundTripIff | camera/VendorTagDescriptor.cpp:139-325 | A descriptor made from the vendor operations is read back if and only if its tags differ and no name or section is empty; never does the reader abort |
| VendorTagRoundTrip.WholeDescriptorIff | camera/VendorTagDescriptor.cpp:139-325 | The whole descriptor, reverse index included, comes back if and only if, besides, the largest of tags with equal name and section is listed last |
| VendorTagRoundTrip.DistinctPairsSurvive | camera/VendorTagDescriptor.cpp:139-325 | With distinct tags, distinct pairs and non-empty names the round trip is the identity |
| VendorTagRoundTrip.SurplusCountIsRefused | camera/VendorTagDescriptor.cpp:139-325 | A repeated tag makes the written count too large, and every such parcel is refused |
| VendorTagRoundTrip.SameIndexIff | camera/VendorTagDescriptor.cpp:235-246 | Entering the same rows in ascending order gives the same index if and only if the largest of equal pairs was entered last |
| VendorTagDescriptors.VendorTagDescriptor.CreateDescriptorFromOps | camera/VendorTagDescriptor.cpp:58-137 | Both loops build the descriptor of the theorems, exactly for operations whose tags are all legal; BAD_VALUE otherwise and for null |
| VendorTagDescriptors.VendorTagDescriptor.IndexTags | camera/VendorTagDescriptor.cpp:117-133 | The second loop gives each tag the index of its section and enters it in the reverse mapping |
| VendorTagDescriptors.VendorTagDescriptor.CreateFromParcel | camera/VendorTagDescriptor.cpp:139-250 | For every parcel the reader yields the decoded descriptor with the cursor behind it, the same error, or the same abort |
| VendorTagDescriptors.VendorTagDescriptor.ReadTags | camera/VendorTagDescriptor.cpp:165-203 | The entry loop with its checks in the original order, first failure first |
| VendorTagDescriptors.VendorTagDescriptor.ReadIndex | camera/VendorTagDescriptor.cpp:209-249 | Section count, sections and reverse mapping as decoded |
| VendorTagDescriptors.VendorTagDescriptor.WriteToParcel | camera/VendorTagDescriptor.cpp:291-325 | The writer appends the encoding that the round trip is about |
| VendorTagDescriptors.VendorTagDescriptor.GetTagCount | camera/VendorTagDescriptor.cpp:252-258 | The number of tags, an error for none, whatever count was announced |
| VendorTagDescriptors.VendorTagDescriptor.GetTagArray | camera/VendorTagDescriptor.cpp:260-265 | All tags in ascending order, the rest of the caller's array untouched |
| VendorTagDescriptors.VendorTagDescriptor.GetSectionName | camera/VendorTagDescriptor.cpp:267-273 | The name at the tag's section index, null for an unknown tag |
| VendorTagDescriptors.VendorTagDescriptor.GetTagName | camera/VendorTagDescriptor.cpp:275-281 | The tag's name, null for an unknown tag |
| VendorTagDescriptors.VendorTagDescriptor.GetTagType | camera/VendorTagDescriptor.cpp:283-289 | The tag's type; known tags are those with a name |
| VendorTagDescriptors.VendorTagDescriptor.LookupTag | camera/VendorTagDescriptor.cpp:331-348 | The entry of the two-level index, BAD_VALUE for an unknown section or name |
| Parameters.RoundTripIff | camera/CameraParameters2.cpp:37-89 | unflatten(flatten(p)) restores keys, values and order if and only if no key holds '=' and no value ';' |
| Parameters.ReachableRoundTrip | camera/CameraParameters2.cpp:37-108 | After any run of set, remove and unflatten the text form restores the parameters |
| Parameters.ParsedRoundTrip | camera/CameraParameters2.cpp:59-89 | Whatever text was parsed, printing and parsing it again changes nothing |
| Parameters.TextOfPairs | camera/CameraParameters2.cpp:37-57 | The text is key, equals sign and value, with a semicolon between pairs only |
| Parameters.PairsOfText | camera/CameraParameters2.cpp:59-89 | A text is cut at the first equals sign and then at the first semicolon; a rest without equals sign ends the list |
| Parameters.SetInFields | camera/CameraParameters2.cpp:92-108 | A set is refused exactly for a key or value with a separator in it; otherwise the first pair with the key goes and the new one stands at the end |
| Parameters.RemoveInFields | include/camera/CameraParameters2.h:142-161 | Get and remove take the first pair with the key |
| Parameters.GetsTheLatest | camera/CameraParameters2.cpp:92-132 | Over any run of set and remove, get answers with the latest accepted value of a key that was not removed since |
| Parameters.ComparesBySetOrder | camera/CameraParameters2.cpp:149-177 | Over any run of set and remove, compareSetOrder orders two present keys by their latest accepted sets and reports a missing one |
| Parameters.RunIsInSetOrder | include/camera/CameraParameters2.h:187-198 | The list holds every key once, in the order of the latest sets |
| Parameters.DuplicateKeyHidesSet | camera/CameraParameters2.cpp:59-108 | A text with a key twice makes a later set of that key invisible to get |
| Parameters.SetThenGetIff | camera/CameraParameters2.cpp:92-132 | An accepted set is what get answers if and only if the key does not stand a second time with another value |
| SortedParameters.RoundTripIff | camera/CameraParameters.cpp:243-293 | The sorted variant restores itself from its text if and only if it is clean |
| SortedParameters.ReachableRoundTrip | camera/CameraParameters.cpp:243-310 | After any run of set, remove and unflatten on the sorted variant the text form restores it |
| SortedParameters.GetAfterPut | camera/CameraParameters.cpp:296-332 | A put is seen under its own key and under no other |
| SortedParameters.StoreInFields | camera/CameraParameters.cpp:296-332 | A set is refused exactly for a separator; an empty value is answered like a missing one |
| SortedParameters.SameValues | include/camera/CameraParameters2.h:26-30 | Driven by the same sets and removals, both classes hold the same values, and their get differs on empty values only |
| Numbers.StrtolRoundTrip | camera/CameraParameters.cpp:312-317 | Every int printed by sprintf is what strtol in base ten reads, and the end pointer stands behind it |
| Numbers.StrtolGuessesTen | camera/CameraParameters.cpp:334-340 | The same when strtol guesses the base from the text |
| Numbers.PrintedNumbers | camera/CameraParameters.cpp:312-317 | Printed ints, digit by digit |
| Numbers.ReadDecimals | camera/CameraParameters.cpp:361-385 | Whitespace, sign, digits and the text behind them, and texts without a number |
| Numbers.GuessedBases | camera/CameraParameters.cpp:334-340 | The bases that strtol guesses |
| Sizes.PairRoundTrip | camera/CameraParameters.cpp:361-385 | parse_pair reads back every printed pair, zero and negatives included, and stops right behind it |
| Sizes.SizesRoundTrip | camera/CameraParameters.cpp:387-410 | parseSizesList reads back every non-empty printed list |
| Sizes.PrintedSizes | camera/CameraParameters.cpp:387-410 | Sizes in text, digit by digit |
| Sizes.ReadSizes | camera/CameraParameters.cpp:387-410 | That text reads as those sizes |
| Sizes.RefusedSizes | camera/CameraParameters.cpp:361-410 | Other separators end the list before the pair |
| Sizes.SizesThen | camera/CameraParameters.cpp:387-410 | The printed pairs before any further text are kept, whatever that text is |
| Sizes.MalformedEndsTheList | camera/CameraParameters.cpp:387-410 | Exactly the pairs before an item are kept if and only if that item is malformed |
| Sizes.PairAcceptedIff | camera/CameraParameters.cpp:361-385 | A text is accepted if and only if nothing, or nothing but one number, stands before its first delimiter; what follows the delimiter does not matter |
| Sizes.NoDelimiterIsRefused | camera/CameraParameters.cpp:368-372 | A text without the delimiter is never accepted |
| Sizes.MissingNumbersAreZero | camera/CameraParameters.cpp:361-385 | In every accepted text a component is zero without any digit if and only if no number stands before the delimiter, or after it for the second |
| Sizes.StrtolMissingIff | camera/CameraParameters.cpp:366-375 | strtol stays where it is and answers zero if and only if no number starts there, behind whitespace and a sign at most |
| Sizes.ParseSizesList | camera/CameraParameters.cpp:387-410 | The loop ends on every string and pushes what the list theorems say |
| CameraParameterClasses.IntRoundTrip | camera/CameraParameters.cpp:312-340 | set(int) followed by getInt gives the int back, in both classes |
| CameraParameterClasses.IntInFields | camera/CameraParameters.cpp:334-340 | -1 for a missing value, zero for one that holds no number |
| CameraParameterClasses.PairInFields | camera/CameraParameters.cpp:419-426 | -1 and -1 for a missing value, one without the delimiter, and one with anything but a number before it |
| CameraParameterClasses.PairRoundTrips | camera/CameraParameters.cpp:412-426 | Size and range setters followed by their getters give the pair back, in both classes |
| CameraParameterClasses.FlattenPairs | camera/CameraParameters.cpp:243-261 | The printing loop, with its separator everywhere but after the last pair |
| CameraParameterClasses.CameraParameters2.FromText | camera/CameraParameters2.cpp:59-89 | The pointer walk yields the parsed list, pairs in order, duplicates kept |
| CameraParameterClasses.CameraParameters2.SetText | camera/CameraParameters2.cpp:92-108 | Refuses a key or value with '=' or ';', else moves the key to the end with its new value |
| CameraParameterClasses.CameraParameters2.RemoveItem | include/camera/CameraParameters2.h:153-161 | The first pair with the key is removed, and nothing when there is none |
| CameraParameterClasses.CameraParameters2.IndexOfKey | include/camera/CameraParameters2.h:142-151 | The first pair with the key |
| CameraParameterClasses.CameraParameters2.CompareOrder | camera/CameraParameters2.cpp:149-177 | BAD_VALUE for a null key, NAME_NOT_FOUND for a missing one, else the comparison the order theorem is about |
| CameraParameterClasses.CameraParameters2.SetInt | camera/CameraParameters2.cpp:110-115 | On a list without repeated keys, getInt answers with the value that was set |
| CameraParameterClasses.CameraParameters.FromText | camera/CameraParameters.cpp:263-293 | The pointer walk keeps the vector sorted and clean; of repeated keys the last value stays |
| CameraParameterClasses.CameraParameters.SetText | camera/CameraParameters.cpp:296-310 | Refuses what the text form could not carry, else replaces the value in place |
| CameraParameterClasses.CameraParameters.RemoveItem | camera/CameraParameters.cpp:356-359 | The key is gone, order and cleanness stay |
| CameraParameterClasses.CameraParameters.ToText | camera/CameraParameters.cpp:243-261 | The text printed is one that parses back to these pairs |
| CameraParameterClasses.CameraParameters.SetSize | camera/CameraParameters.cpp:412-417 | The size can be read back under the same key at once |
| CameraParameterClasses.CameraParameters.GetSize | camera/CameraParameters.cpp:419-426 | -1 and -1 without a value or with one that is no pair, else the pair |
| TextWrap.WrapKeepsTheText | cmds/screenrecord/TextRenderer.cpp:284-313 | With every glyph narrower than each line, wrapping ends, and lines and skipped whitespace concatenate to the string |
| TextWrap.EachLineFits | cmds/screenrecord/TextRenderer.cpp:284-313 | No line exceeds its space, none but the last is empty, and each break skips at most one whitespace character |
| TextWrap.UnbrokenIff | cmds/screenrecord/TextRenderer.cpp:318-331 | A string is one line if and only if it is empty or no wider than the space |
| TextWrap.WhitespaceIs | cmds/screenrecord/TextRenderer.cpp:33 | The four whitespace characters |
| TextWrap.BreakIsLastSpace | cmds/screenrecord/TextRenderer.cpp:333-356 | A line breaks at the last whitespace that fits, and inside a word only where there is none |
| TextWrap.FitIsLongest | cmds/screenrecord/TextRenderer.cpp:333-347 | The prefix considered is the longest one that stays under the width |
| TextWrap.OverrunIff | cmds/screenrecord/TextRenderer.cpp:298-309 | For every string, running past the terminator takes a string that does not fit and a last glyph wider than its line; this is exact unless the string ends in whitespace, and a single whitespace character at the end excludes it |
| TextWrap.WideSpacesIff | cmds/screenrecord/TextRenderer.cpp:298-309 | On a string of whitespace wider than the lines the loop runs past the terminator if and only if their number is odd |
| WrapEnds.LastTextIs | cmds/screenrecord/TextRenderer.cpp:284-311 | The recursive last text and its space are those of the last line of the wrapped string |
| WrapEnds.EmptyLineNeedsSpace | cmds/screenrecord/TextRenderer.cpp:284-311 | A string that does not end in whitespace never has an empty last line |
| WrapEnds.EndIsLastLine | cmds/screenrecord/TextRenderer.cpp:284-311 | What stands before further text is the last line of the string, unless that fills its space exactly and is broken once more |
| WrapEnds.OneMoreSpace | cmds/screenrecord/TextRenderer.cpp:284-311 | A string is broken as before when a whitespace character follows it: an overrun becomes an empty last line, and otherwise the character joins the last line, is skipped behind it, or overruns alone |
| WrapEnds.NothingIsLeftIff | cmds/screenrecord/TextRenderer.cpp:333-356 | One turn over a text that fits and one more character leaves nothing if and only if the character is whitespace and does not fit |
| WrapEnds.EmptyLineIff | cmds/screenrecord/TextRenderer.cpp:284-324 | The last line of any string that ends in whitespace is empty if and only if the string before it overran, or ends behind a text that is not empty and leaves no room for the whitespace |
| WrapEnds.NarrowEmptyLineIff | cmds/screenrecord/TextRenderer.cpp:284-324 | With every glyph narrower than each line: if and only if the last line of the string before it has no room for the whitespace |
| WrapEnds.EmptyLineIsDrawn | cmds/screenrecord/TextRenderer.cpp:320-324 | One glyph and a space on lines that hold one glyph are drawn as two lines, the second one empty; so is the empty string as one |
| WrapEnds.OverrunBehindSpaceIff | cmds/screenrecord/TextRenderer.cpp:298-309 | The loop runs past the end of any string that ends in whitespace if and only if that whitespace comes to stand alone on a line narrower than it |
| TextWrap.PlacedAt | cmds/screenrecord/TextRenderer.cpp:288-311 | Line i is drawn i glyph heights below the first, and all but the first are indented |
| TextWrap.DownIs | cmds/screenrecord/TextRenderer.cpp:310 | The position returned is the start plus the glyph height times the number of lines |
| TextWrap.ComputeWidth | cmds/screenrecord/TextRenderer.cpp:169-179 | The width of a prefix is the sum of its advances |
| TextWrap.BreakString | cmds/screenrecord/TextRenderer.cpp:318-360 | Both scans find the break of the theorems; null exactly for a string that is empty or fits |
| TextWrap.PieceBetween | cmds/screenrecord/TextRenderer.cpp:298-303 | Cutting the copied string with a terminator and restoring the character leaves the copy as it was |
| TextWrap.DrawLine | cmds/screenrecord/TextRenderer.cpp:288-310 | One turn draws its line and leaves the start where the next one begins |
| TextWrap.DrawBroken | cmds/screenrecord/TextRenderer.cpp:284-313 | The loop over the patched copy draws exactly the lines of the wrapped string, one below the other |
| TextWrap.DrawWrapped | cmds/screenrecord/TextRenderer.cpp:253-316 | Nothing is drawn without a screen or a pixel between position and right border; else the lines, the first at the position and the others indented, one glyph height below the other, unless the loop runs past the terminator |
| GlyphTexture.PowerOfTwoCeilIs | cmds/screenrecord/TextRenderer.cpp:62-78 | The bit smearing gives the least power of two that is not below the value, and zero where there is none |
| GlyphTexture.RowIsDisjoint | cmds/screenrecord/TextRenderer.cpp:45-60 | Glyphs of one row of the texture lie apart, by a pixel at least |
| GlyphTexture.InitXOffset | cmds/screenrecord/TextRenderer.cpp:45-60 | The table holds each glyph's place in its row |
| Avcc.ParseEmitsTheSets | cmds/stagefright/sf2.cpp:323-399 | For every configuration record and whatever follows it, both groups are emitted, each NAL unit prefixed by a start code and in order, if and only if both fit the 1024-byte buffer |
| Avcc.AcceptedIsARecord | cmds/stagefright/sf2.cpp:323-399 | Whatever the parser accepts is such a record, and what it emits are that record's parameter sets |
| Avcc.AnnexBInBytes | cmds/stagefright/sf2.cpp:351-366 | A start code of four bytes before each set |
| Avcc.RecordInBytes | cmds/stagefright/sf2.cpp:323-399 | One record and what is emitted for it, byte by byte |
| Avcc.RefusedInBytes | cmds/stagefright/sf2.cpp:323-336 | Fewer than seven bytes or another version fail the checks |
| Avcc.NalsAreTaken | cmds/stagefright/sf2.cpp:351-366 | A group is converted whole, or it overflows the buffer |
| Avcc.ConvertGroup | cmds/stagefright/sf2.cpp:351-366 | Pointer and size always end together at the record's end, and the buffer holds the converted group |
| Avcc.MakeCsd | cmds/stagefright/sf2.cpp:323-399 | The two loops and their checks equal the parser of the theorems |
| Trim.StartedIff | cmds/stagefright/muxer.cpp:189-205 | For times in any order, a sample is written if and only if a sync sample opened the window at or before it and none since lay behind its end |
| Trim.OffsetIsTheOpening | cmds/stagefright/muxer.cpp:194-200 | The offset is the time of the sync sample that opened the stretch being written |
| Trim.TrimIsOneRun | cmds/stagefright/muxer.cpp:164-215 | With times in order, exactly the run from the first sync sample in the window to the last sample at or before its end is written, moved by the first one's time |
| Trim.TimesKeepDifferences | cmds/stagefright/muxer.cpp:207-211 | Output times start at zero and keep all differences |
| Trim.UntrimmedIsUnchanged | cmds/stagefright/muxer.cpp:207-211 | Without trimming every mapped sample is written at its own time |
| Trim.OneStretchIff | cmds/stagefright/muxer.cpp:189-205 | For times in any order, the samples written form one contiguous stretch if and only if no sample behind the end of the window lies between two sync samples inside it |
| Trim.StretchIsMoved | cmds/stagefright/muxer.cpp:189-211 | For times in any order, each stretch is written as it is, moved by the time of the sync sample that opened it |
| Trim.StretchTimes | cmds/stagefright/muxer.cpp:207-211 | For times in any order, a stretch starts at zero and keeps all differences, and an output time is negative if and only if its sample lies before the one that opened the stretch |
| Trim.AdjustedIff | cmds/stagefright/muxer.cpp:130-137 | The start is reset to zero if and only if a selected track is shorter |
| Trim.Muxing | cmds/stagefright/muxer.cpp:164-215 | The loop, skipping unmapped tracks, writes the output of the theorems |
| Trim.RecordInFields | cmds/stagefright/muxer.cpp:189-211 | For times in any order, each further sample adds one record while the window is open and none otherwise: mapped track, sync flag, data, and its time less that of the sample that opened the stretch |
| Trim.StretchInFields | cmds/stagefright/muxer.cpp:189-211 | The records of a stretch, field by field |
| Trim.UntrimmedInFields | cmds/stagefright/muxer.cpp:207-211 | The records without trimming, field by field |
| Trim.MappedInFields | cmds/stagefright/muxer.cpp:170-188 | Exactly the samples of mapped tracks are looked at, in order |
| Histogram.SlotIff | cmds/stagefright/stagefright.cpp:102-109 | A time is in a slot if and only if it lies in that hundredth of the range, the maximum in the last |
| Histogram.SlotsAreMonotone | cmds/stagefright/stagefright.cpp:102-109 | Later slots hold later times, and all slots are below 100 |
| Histogram.SlotWithinEdges | cmds/stagefright/stagefright.cpp:105-112 | Each time lies at or above its slot's printed edge and at or below the next one |
| Histogram.DecodeHistogram | cmds/stagefright/stagefright.cpp:85-117 | Each slot counts the times that lie in it, the counts sum to the number of times, the printed edges are the slots' edges |
| Histogram.CountIs | cmds/stagefright/stagefright.cpp:102-109 | A slot counts exactly the times in its hundredth of the range |
| DetectSync.PassedIsFromTheFirstIdr | cmds/stagefright/stagefright.cpp:472-501 | What an AVC stream passes on is the suffix from its first IDR frame |
| DetectSync.IsIdrFrame | cmds/stagefright/stagefright.cpp:456-470 | Finds an IDR unit behind a start code wherever in the buffer it lies |
| DetectSync.OthersPass | cmds/stagefright/stagefright.cpp:472-501 | A stream that is not AVC passes as it is |
| DetectSync.UnitsInBytes | cmds/stagefright/stagefright.cpp:456-470 | Buffers with and without an IDR unit, byte by byte |
| DetectSync.DetectSyncSource.Read | cmds/stagefright/stagefright.cpp:472-501 | Each read hands over the next buffer of that suffix with its sync flag, an error only when none is left, and every buffer that was skipped was released |
| Frames.ReducedAt | cmds/screenrecord/FrameOutput.cpp:193-206 | Byte j of pixel i is byte j of pixel i of the original, for j below three |
| Frames.ReduceRgbaToRgb | cmds/screenrecord/FrameOutput.cpp:193-206 | In place, the front of the buffer becomes the reduced pixels and the bytes behind stay |
| Frames.LeRoundTrip | cmds/screenrecord/FrameOutput.cpp:32-41 | Four little-endian bytes carry a value modulo 2^32 |
| Frames.SetValueLE | cmds/screenrecord/FrameOutput.cpp:32-41 | Writes those four bytes and no others |
| Frames.PacketRoundTripIff | cmds/screenrecord/FrameOutput.cpp:155-176 | A framed packet is read back by its length prefix, before any bytes, if and only if its length fits 32 bits |
| Frames.PacketInBytes | cmds/screenrecord/FrameOutput.cpp:155-176 | A packet of two pixels, byte by byte |
| Frames.LittleEndian | cmds/screenrecord/FrameOutput.cpp:32-41 | The lowest byte comes first |
| Frames.StreamRoundTrip | cmds/screenrecord/FrameOutput.cpp:155-176 | Any concatenation of framed packets is read back as the same sequence of frames |
| Frames.StreamsAreUnique | cmds/screenrecord/FrameOutput.cpp:155-176 | Two streams with the same bytes hold the same frames |
| Frames.WriteFrame | cmds/screenrecord/FrameOutput.cpp:145-176 | The reduced pixels, width times height of them, are written behind their header, or alone for raw frames |

## Left out

- OnPrepare: a track's kind stands for its mime string; codec creation, configuration and looper set-up are calls into libraries that succeed.
- OnMessageReceived: does not say what setDataSource replies on success, because the code never assigns that status; it also does not model the replies' transport.
- OneLivePump: the generation is an unbounded integer, not a 32-bit one that wraps after 2^32 starts and stops.
- AudioNeverOverflows: speaks of the states before an abort; the other calls that the code checks (codec, extractor, getPosition) are assumed to succeed, and what has reached the AudioTrack at an abort is not kept.
- Feed: the extractor names tracks by their position among the selected ones, and never one that was not selected.
- HandshakeIsSafe: the client discipline is one start(), and stop() only after start() has returned; GL set-up is one action that succeeds or fails.
- StopEndsTheWorker: no fairness of the scheduler is assumed, so a run may starve the worker for ever.
- OneOwnerAlways: allocation succeeds, and addresses are not reused, so that a freed buffer stays recognisable.
- NeverFailsForRoom: append of an object to itself is not modelled, and entry sizes are those the metadata library reports.
- UpdateIsFound: the library's find answers with the first entry of a tag; append can make a tag occur twice, so no map view is claimed.
- ModifyWith: the type check of update and the typed overloads are left out, because they only select the data size.
- MetadataRoundTripIff: the packed form of the metadata and its validation are parameters with the contract that one undoes the other (`PlainLibrary.PlainIsFaithful` gives a library that meets it). A blob is one item: reading less than a whole blob fails here, where a parcel of bytes could hand over a part and leave it to the validation.
- UnsentIsNotReceived: holds for a parcel of typed items. In a parcel of bytes the offset behind a blob that was not granted would be read as the head of a blob, and reading would go on into what follows.
- SubmissionRoundTripIff: a parcel is a sequence of typed items rather than bytes; the interface token and the reply are left out; object identity of surfaces is a handle.
- CreateDescriptorFromOps: the vendor functions answer the same each time they are asked, so the intermediate map from tag to section is not kept; NUM_TYPES and the vendor tag boundary come from a header that is not part of this model and are constants here.
- CreateFromParcel: stops of the process (an index past a vector, a capacity of zero) are one outcome, Aborted; parcels with unsorted or repeated sections are decoded as the code does but have no theorem of their own.
- FromText: strings hold no terminator character, as C strings do not.
- StrtolRoundTrip: a long has 64 bits; the locale is the C locale; the float getters and setters are left out.
- PairRoundTrips: every key is a parameter; the KEY_ constants are not listed.
- DrawWrapped: widths are real numbers rather than floats; advances are a parameter, positive where a theorem needs it; drawing is the list of drawString calls.
- OverrunIff: its condition is necessary and not exact for strings that end in two or more whitespace characters; `WrapEnds.OverrunBehindSpaceIff` is exact for them, with positive advances.
- InitXOffset: assumes no texture row wider than a uint16_t counts; the glyph tables themselves are data.
- MakeCsd: only the AVC branch of makeFormat; the ESDS and Vorbis branches copy one buffer; a memcpy past the buffer is an outcome, Overflow.
- Muxing: which selected tracks the muxer accepts is a parameter; buffer sizes and file output are left out; the products of milliseconds by 1000 do not overflow.
- DecodeHistogram: takes the times after the library's sort; 64-bit products do not overflow for times below 2^56; the printed rate is a floating-point quotient of the edge.
- Read: the wrapped source is a finite list of buffers before its error; read options are passed through unseen.
- WriteFrame: the wait for a frame in copyFrame and the GL read are left out; the file is the bytes written to it; HAL_PIXEL_FORMAT_RGB_888 comes from a header that is not part of this model.
- ProcessFrame: frame numbers increase, as the buffer queue numbers them; whether it ever numbers a first frame zero is decided there, and the buffer queue is not part of this model.
- Binder proxies and stubs other than the request list, service lookup and death notification: one call per branch.
- CaptureResult, DrmConstraints, DRM info classes, CameraUtils, dump functions, sine generation, command lines and signal handling: field copies, tables or output.
