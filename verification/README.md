# Moreland: a verified model

Moreland turns an Android tablet into a monitor. A daemon on the host captures a virtual output, encodes it and streams
frames over an adb-forwarded socket; the tablet decodes and shows them, and sends acknowledgements and touches back over
the same socket. This project models the parts of both programs whose behaviour is a protocol or a state machine, in the
form the programs give them: classes whose methods update fields and arrays, loops with invariants, transition systems
where several threads share state. Beside each stands what the programs are for, proved of every input, every run or
every interleaving.

`dafny verify dfyconfig.toml` checks all of it. Source paths below are relative to the repository's root.

## What is modelled

**The reverse channel** (`ReverseChannel`, `WriterOrder`, `WriterRelease`, `WriterWakeups`, `VideoStream`, `AckReader`,
`AckLine`, `RoundTrips`, `CoalescedGesture`, `ReverseProtocol`). Any number of `sendTouch` threads, the decoder callback
and the one writer thread share a FIFO queue and an atomic slot for the latest MOVE. `ReverseChannel` takes each access
to either as one step and each interleaving as one action sequence. `VideoStream` is the same program over real fields
and one reused byte array, every method proved to be one step of that system. `AckReader` is the host's side, the reader
thread and the send times it matches acks with, over every schedule of reads and sends; `ReadDevice` joins the two
programs. `AckLine` follows the acks from the decoder through the batches to the host's round trips, `RoundTrips` frames
and acks through a device that may drop frames, and `CoalescedGesture` a gesture from the finger to the cursor.

**The gesture machines** (`Pointer`, `PointerGestures`, `PointerMotion`, `PointerButtons`, `Touchscreen`). The
four-state pointer machine with its timers, double-tap drag and sub-pixel residual, and the touchscreen that emits Linux
multi-touch protocol B. The device is a log of what was emitted to it. Times are the clock readings that come with the
arrivals; sensitivity and residual are exact reals; `trunc() as i32` is exact, saturation included.

**The reconciler** (`Allocators`, `Reconciler`, `ReconcilerRuns`, `ReconcilerEvents`, `RefusedTablet`, `Daemon`). The
daemon's main loop, one step per turn, with its registry, cooldown table, debounce table and two allocators. The
environment supplies finished threads, the tracker's answer, clock readings and whether threads start. `Daemon` is the
loop over mutable tables, proved to refine `Reconciler` turn by turn. `ReconcilerRuns` proves what holds of whole runs,
and `ReconcilerEvents` accounts for each thing the environment supplies: what it leaves in the log, the registry and
the tables.

**The forward stream** (`ForwardProtocol`, `ForwardStream`, `ForwardTransport`, `FrameLoop`). The sender writes through
a socket that accepts any number of bytes at a time, the device reads from one that returns any number, and unless the
socket refuses to accept any, the calls made on one side are the frames handed on at the other (`Relay`).

**The capture session** (`CaptureCaps`, `CaptureGenerations`, `CaptureSteps`, `CapturePools`, `CaptureHalfSet`,
`CaptureSession`). What a compositor's constraint events amount to, however they are spread over dispatches; the pool
built from them and rebuilt when it is rejected; frames taken round it. `CaptureSteps` says which dispatches each
operation takes, what it returns and what it leaves; only the environment's refusals, which are counted, are not
determined. `CapturePools` says it of the events themselves: where a pool's size and format come from, when a rebuild
succeeds and what becomes of a frame. `CaptureSession` is the program over mutable fields, every method proved to do
exactly that.

**Smaller cores.** Choosing a streaming resolution (`Scaling`), printing Lua strings (`LuaString`), rewriting
`kcminputrc` (`KwinConfig`).

`Bytes`, `Sequences` and `Wrappers` hold what the others share.

## Where the code differs from its comments, or a property needs a condition

The model follows the code. Each case has a lemma with the exact condition or a concrete run.

- VideoStream.kt:417-421 says that a MOVE left in the slot follows everything the queue produced. A DOWN, UP or CANCEL
  queued between the writer's empty poll and its slot take breaks that: `MoveOvertakesDown` is such a run,
  `SentOrderKept` says order is kept exactly when no MOVE overtakes, and `OvertakingNeedsWindow` that only that window
  allows it.
- VideoStream.kt:162-168 flushes the slot so that the finger's last position goes out ahead of the release. Under every
  interleaving it does, unless the writer had already taken that MOVE with its batch full, and exactly then
  (`ReleaseFollowsItsMove`; `ReleaseWithoutItsMove` is such a run).
- VideoStream.kt:146-148 says that Wake sentinels do not pile up. One thread sending MOVEs with acks arriving can have
  three queued, and one more for each full batch in a row: `WakesDoNotPileUp` is the bound and `WakesDoPileUp` a run
  that reaches it for any number of full batches. Without acks there is never more than one.
- session.rs:360-366 calls FIFO matching of acks exact. After a dropped frame each ack is matched with an earlier
  frame's send time, so the recorded trip can only be too long (`RecordedTrip`), and can be so by any amount
  (`DropOverstates`).
- capture/src/session.rs:533-535 says that waiting for `session_done` synchronises with the new constraints. When no
  constraint event has arrived since the last build the flag is still set, and the pool is rebuilt as it was without
  awaiting anything (`RebuiltFromStale`). When two sets have arrived they add up, and a format in both keeps the first
  set's modifiers (`OlderModifiersWin`). When a dispatch delivers a set and the beginning of the next, the pool is built
  from both, and the rest of that next set then stands without what came first: `HalfASet` is a session that is sent
  three complete sets, goes on with the second one's modifiers on the third one's device, and ends without a pool.
  `PoolOfOneSet` says exactly when a pool comes from one complete set.
- input.rs:450-469 does not release the button a drag holds. `HeldExactlyWhileDragging` gives the condition, no Down in
  a drag, `DownInDragSticks` what happens otherwise and `DragThenDown` a run where it does; a single finger always meets
  the condition (`OneFingerIsClean`).
- input.rs:562-564 carries a sub-pixel remainder forward. It is less than a pixel if and only if the widest sweep fits a
  32-bit pixel count (`ResidualSmallIffSweepFits`).
- main.rs:602-606 refuses an output name when even the full serial collides. That can happen exactly to serials of at
  most four lowercase letters and digits (`NeverRefusedIff`; `PlainSerialFails` is a run in which each is refused).
- input.rs:235-236 and 262-265: a line that merely begins like the device's header is kept, and the check then looks
  below that line. A file with such a line (`LongerHeaderNeverSettles`), or any file for an output whose name ends in
  white space (`TrailingSpaceNeverSettles` has the empty one), is rewritten at every start, one line longer each time
  (`RewriteTakesHold`, `AssociateSettles`).

## Model

| member | source | states |
|---|---|---|
| `ReverseProtocol.DecodeEncode` | crates/protocol/src/lib.rs:296-352 | the host decodes every encoded message to itself, and a 9-byte block is an encoding exactly when it decodes with its reserved bytes zero |
| `ReverseProtocol.BlockSays` | crates/protocol/src/lib.rs:305-352 | what each byte of a block says, numbers most significant byte first; the reserved bytes of a touch say nothing; a block is malformed exactly for its length, its type or its action |
| `ReverseProtocol.EncodeAckMessage` | android/app/src/main/java/com/moreland/display/Protocol.kt:159-166 | the device's shift-and-truncate loop fills the array with the big-endian encoding the host decodes |
| `ReverseProtocol.EncodeTouchMessage` | android/app/src/main/java/com/moreland/display/Protocol.kt:169-181 | likewise for a touch |
| `ReverseChannel.PipelineStep` | android/app/src/main/java/com/moreland/display/VideoStream.kt:141-172 | one step of any thread leaves written + batch + queue alone, appends one entry, removes one Wake, or slips the slot's MOVE in behind the batch |
| `ReverseChannel.GestureOrderKept` | android/app/src/main/java/com/moreland/display/VideoStream.kt:388-444 | under every interleaving, what is written with MOVEs deleted is a prefix of what was queued with MOVEs deleted, and batch and queue hold exactly the rest |
| `ReverseChannel.TouchesConserved` | android/app/src/main/java/com/moreland/display/VideoStream.kt:135-173 | in every run each touch sent is in exactly one place once, nothing unsent is anywhere, and each loss is a MOVE lost to a later MOVE, a later DOWN or a full batch |
| `ReverseChannel.EveryGestureWritten` | android/app/src/main/java/com/moreland/display/VideoStream.kt:153-171 | once calls have returned and the writer has caught up, each DOWN, UP and CANCEL has been written exactly once |
| `ReverseChannel.ThreadOrderKept` | android/app/src/main/java/com/moreland/display/VideoStream.kt:128-173 | however threads interleave, each thread's DOWNs, UPs and CANCELs are written in the order in which it sent them |
| `WriterWakeups.NoLostWakeup` | android/app/src/main/java/com/moreland/display/VideoStream.kt:142-152 | the writer is blocked on an empty queue with a MOVE in the slot only while some call is about to offer its Wake |
| `WriterWakeups.WriterReachesSlot` | android/app/src/main/java/com/moreland/display/VideoStream.kt:399-433 | with no call about to offer a Wake, however the other threads interleave and whatever they queue, the slot is emptied within Wakes queued + one batch + 4 of the writer's steps |
| `WriterWakeups.WriterAloneReachesSlot` | android/app/src/main/java/com/moreland/display/VideoStream.kt:399-433 | with nobody else moving, within queue length + 4 steps |
| `WriterWakeups.EntriesAreTaken` | android/app/src/main/java/com/moreland/display/VideoStream.kt:399-415 | however the other threads interleave and whatever they add, the first n entries of the queue are taken, in order, within n of the writer's steps and three more for each full batch on the way |
| `WriterWakeups.WakesDoNotPileUp` | android/app/src/main/java/com/moreland/display/VideoStream.kt:143-151 | during a drag from one thread, with acks at will, at most three Wakes are queued, plus one per consecutive full batch |
| `WriterWakeups.WakesDoPileUp` | android/app/src/main/java/com/moreland/display/VideoStream.kt:143-151 | for every k a run of MOVEs and acks with k full batches in a row in which 3 + k Wakes are queued: the bound is reached |
| `WriterWakeups.OneWakeWithoutAcks` | android/app/src/main/java/com/moreland/display/VideoStream.kt:143-151 | without acks a Wake is due exactly while a MOVE waits that the writer has not been woken for, and never two |
| `WriterOrder.SentOrderKept` | android/app/src/main/java/com/moreland/display/VideoStream.kt:412-433 | for one sender, touches leave in the order sent if and only if no MOVE is appended past a touch queued after the drain; any touch missing is the MOVE in the slot or a MOVE with a recorded loss |
| `WriterOrder.OvertakingNeedsWindow` | android/app/src/main/java/com/moreland/display/VideoStream.kt:413-422 | for any number of threads, overtaking needs a touch queued between the writer's empty poll and its slot take |
| `WriterOrder.MoveOvertakesDown` | android/app/src/main/java/com/moreland/display/VideoStream.kt:417-433 | a run in which a MOVE is written before the DOWN sent ahead of it |
| `WriterRelease.ReleaseFollowsItsMove` | android/app/src/main/java/com/moreland/display/VideoStream.kt:161-171 | for any number of threads and every interleaving, a written UP or CANCEL sent directly after a MOVE has that MOVE ahead of it on the socket if and only if the MOVE was not thrown away with a full batch |
| `WriterRelease.ReleaseWithoutItsMove` | android/app/src/main/java/com/moreland/display/VideoStream.kt:422-433 | a run in which an UP is written without the MOVE before it |
| `CoalescedGesture.GestureInOnePiece` | android/app/src/main/java/com/moreland/display/VideoStream.kt:135-173 | for one sender, where nothing overtakes and the last MOVE is not lost, the socket carries the gesture in one piece: its DOWN, some of its MOVEs in order with the last among them, its end |
| `CoalescedGesture.CoalescingWithinAPixel` | crates/daemon/src/input.rs:471-524 | and the pointer then ends within a pixel of where all the MOVEs would have taken it, however either is timed, short of a drag or a long press |
| `VideoStream.Stream.constructor` | android/app/src/main/java/com/moreland/display/VideoStream.kt:227-233 | a session starts with queue and slot empty |
| `VideoStream.Stream.SendMove` | android/app/src/main/java/com/moreland/display/VideoStream.kt:142-152 | MOVE replaces the slot and owes a Wake exactly when the slot was empty |
| `VideoStream.Stream.SendDown` | android/app/src/main/java/com/moreland/display/VideoStream.kt:153-160 | DOWN empties the slot before it is queued |
| `VideoStream.Stream.SendRelease` | android/app/src/main/java/com/moreland/display/VideoStream.kt:161-171 | UP and CANCEL owe the slot's MOVE first, then themselves |
| `VideoStream.Stream.SendTouch` | android/app/src/main/java/com/moreland/display/VideoStream.kt:135-173 | a call's first access to shared state is one step of the transition system |
| `VideoStream.Stream.ContinueSendTouch` | android/app/src/main/java/com/moreland/display/VideoStream.kt:149-170 | each offer of a call is one step of the transition system |
| `VideoStream.Stream.OnOutputBufferAvailable` | android/app/src/main/java/com/moreland/display/VideoStream.kt:359-370 | a rendered frame queues one ack, any other none |
| `VideoStream.Stream.Append` | android/app/src/main/java/com/moreland/display/VideoStream.kt:450-464 | one message's bytes follow what the batch held; no byte before them changes and the offset moves by nine |
| `VideoStream.Stream.AppendOrSkip` | android/app/src/main/java/com/moreland/display/VideoStream.kt:450-458 | a Wake adds no byte |
| `VideoStream.Stream.PollFirst` | android/app/src/main/java/com/moreland/display/VideoStream.kt:403-406 | the blocking poll is one step of the transition system |
| `VideoStream.Stream.DrainNext` | android/app/src/main/java/com/moreland/display/VideoStream.kt:412-415 | so is each turn of the drain loop |
| `VideoStream.Stream.TakeSlot` | android/app/src/main/java/com/moreland/display/VideoStream.kt:422-433 | so is taking the slot, whose MOVE is appended only if it fits |
| `VideoStream.Stream.WriteOut` | android/app/src/main/java/com/moreland/display/VideoStream.kt:435-438 | exactly the used part of the reused array is written: whole messages of this batch and no stale byte |
| `VideoStream.Stream.WriterNext` | android/app/src/main/java/com/moreland/display/VideoStream.kt:395-444 | the writer's next step over fields and array is the transition system's |
| `AckReader.MalformedBlockSkipped` | crates/daemon/src/session.rs:385-389 | an undecodable block contributes nothing and disturbs no message before or after it |
| `AckReader.BlocksGrow` | crates/daemon/src/session.rs:351-357 | a read fragment within the current block adds exactly the block it completes |
| `AckReader.MessagesOfPrefix` | crates/daemon/src/session.rs:349-400 | however much of an encoded stream has arrived reads as the messages completely there |
| `AckReader.EndToEnd` | crates/daemon/src/session.rs:349-393 | for every interleaving on the device and every schedule of reads and sends, the host has handled exactly the complete messages read, acks and touches, in the order written; without MOVEs they are a prefix of what was queued |
| `AckReader.TripsAreFifo` | crates/daemon/src/session.rs:359-369 | the send times left are the latest, and unless an ack found none waiting the k-th trip runs from the k-th send to the k-th ack |
| `AckReader.AcksMakeTrips` | crates/daemon/src/session.rs:359-369 | whatever their timestamps, exactly as many acks make no trip as acks were ever ahead of sends |
| `AckReader.EveryAckMakesATrip` | crates/daemon/src/session.rs:367-369 | every ack makes a trip if and only if at no moment there had been more acks than sends |
| `AckReader.LogKeepsTime` | crates/daemon/src/session.rs:349-419 | under every schedule of fragments each send is in the log at the time it was noted, each message at the time of the read that completed it, in that order, and nothing else |
| `AckReader.EverythingIsRead` | crates/daemon/src/session.rs:351-400 | short of a close, as many nonempty arrivals as there are bytes read them all |
| `AckReader.NothingAfterClose` | crates/daemon/src/session.rs:352-399 | after a close or a failed read no byte is read and no message handled, whatever arrives |
| `AckReader.ReadDevice` | crates/daemon/src/session.rs:348-401 | a host run on what a device has written: its send times, trips and touches are those of exactly the complete messages read |
| `AckReader.Reader.OnRead` | crates/daemon/src/session.rs:354-391 | a read into the free part of the buffer keeps what was received, and handles a message exactly when the buffer is full |
| `AckReader.Reader.OnMessage` | crates/daemon/src/session.rs:358-384 | an ack takes the oldest send time, whatever its timestamp (`EveryAckMakesATrip` says what that comes to); a touch goes to the worker if there is one |
| `AckReader.Reader.Run` | crates/daemon/src/session.rs:349-419 | under every schedule of fragments, timeouts, closes and noted sends, the bytes consumed, the messages handled and the resulting send times, trips and touches are exactly those the schedule determines |
| `AckLine.AcksInOrder` | crates/daemon/src/session.rs:358-369 | for every interleaving on the device and every schedule on the host, the acks handled are those of the frames rendered, in order, and all of them once all is written and read; each makes a trip if and only if at no moment there were more acks than sends, and the k-th trip then runs from the k-th send to the k-th rendered frame's ack |
| `RoundTrips.AckFindsItsSend` | crates/daemon/src/session.rs:367-369 | with frames dropped at will and acks of any timestamp, an ack always finds a send time and exactly one trip is recorded per ack |
| `RoundTrips.RecordedTrip` | crates/daemon/src/session.rs:359-369 | the k-th trip is measured from the k-th send while its ack is for frame k + drops ahead of it; it never understates the true trip, and the pairing is right exactly when no earlier frame was dropped |
| `RoundTrips.DropOverstates` | crates/daemon/src/session.rs:359-369 | one dropped frame makes a recorded trip too long by any amount |
| `Pointer.PointerInput.OnDown` | crates/daemon/src/input.rs:450-469 | a Down emits nothing, clears the residual, and is a pending drag exactly within 300 ms of a tap |
| `Pointer.PointerInput.RelativeDelta` | crates/daemon/src/input.rs:565-575 | pixels and remainder per axis, truncated toward zero and saturated to 32 bits |
| `Pointer.PointerInput.OnMove` | crates/daemon/src/input.rs:471-524 | a stray Move turns a pending double tap into a drag and is not followed; any other Move of a touch or a drag is |
| `Pointer.PointerInput.OnUp` | crates/daemon/src/input.rs:526-560 | an Up or Cancel clicks exactly when the touch never strayed, ends a drag with a release, and emits nothing else |
| `Pointer.PointerInput.OnLongPress` | crates/daemon/src/input.rs:419-435 | a touch that is held right-clicks and is consumed; in any other state nothing happens |
| `Pointer.PointerInput.Cancel` | crates/daemon/src/input.rs:438-448 | teardown releases a button held by a drag and resets everything |
| `Pointer.PointerInput.RunTouchWorker` | crates/daemon/src/input.rs:691-718 | the worker emits what the run of its arrivals emits, then tears down |
| `PointerGestures.GestureHasOneOutcome` | crates/daemon/src/input.rs:411-560 | from any state, a whole gesture emits the packets of exactly one outcome, ends idle, and arms the double-tap timer exactly after a left click; which one is said in coordinates and times: within 1500 units of its press on both axes it is a right click if the clock was looked at 600 ms or more after it, else a left click; beyond that it is a drag within 300 ms of a tap, else motion only |
| `PointerGestures.OutcomeTakes` | crates/daemon/src/input.rs:483-532 | each of the four outcomes comes of exactly the gestures so described, and of no other |
| `PointerGestures.PacketsTellApart` | crates/daemon/src/input.rs:526-560 | the packets alone tell the four outcomes apart, except that a drag that moves nothing after its press looks like a left click |
| `PointerMotion.MotionConserved` | crates/daemon/src/input.rs:501-524 | pixels emitted plus residual are sensitivity times the finger's travel, less the one delta skipped when a drag commits |
| `PointerMotion.ResidualSmallIffSweepFits` | crates/daemon/src/input.rs:562-575 | short of a drag the residual is always below a pixel if and only if the widest sweep fits the 32-bit pixel count |
| `PointerMotion.WideSweepOverflows` | crates/daemon/src/input.rs:570-573 | otherwise one Move across the tablet leaves a pixel or more |
| `PointerMotion.ResidualSmallInEveryRun` | crates/daemon/src/input.rs:565-575 | with one pixel of room, the residual is below a pixel in every run, drags included |
| `PointerMotion.SamplingWithinAPixel` | crates/daemon/src/input.rs:471-524 | two samplings of a gesture with the same final position end within one pixel of each other |
| `PointerMotion.MotionInOnePacket` | crates/daemon/src/input.rs:577-594 | in every run an arrival moves the cursor in one packet for both axes or not at all, and no motion is empty |
| `PointerButtons.HeldExactlyWhileDragging` | crates/daemon/src/input.rs:419-560 | the left button is held exactly while dragging throughout a run if and only if no Down arrives in a drag, and exactly then presses and releases alternate to the end and teardown leaves it up; the right button is then never left held |
| `PointerButtons.OneFingerIsClean` | crates/daemon/src/input.rs:411-417 | a single finger never sends a Down in a drag |
| `PointerButtons.DownInDragSticks` | crates/daemon/src/input.rs:450-469 | a Down in a drag leaves the button held even after teardown |
| `PointerButtons.DragThenDown` | crates/daemon/src/input.rs:450-499 | tap, press, stray and press again: such a run |
| `PointerButtons.RightClickIsLongPress` | crates/daemon/src/input.rs:400-435 | a right click comes only from the timer, at least 600 ms after a Down with nothing since but Moves within the slop |
| `PointerButtons.SilentUntilDown` | crates/daemon/src/input.rs:471-473 | after it nothing is emitted until the next Down |
| `PointerButtons.LongPressFires` | crates/daemon/src/input.rs:691-714 | a touch that stays put for 600 ms does right-click |
| `PointerButtons.TimerIsLastTap` | crates/daemon/src/input.rs:450-560 | in every run the double-tap timer holds the end of the last tap that no release and no right click has followed |
| `Touchscreen.Device.Send` | crates/daemon/src/input.rs:111-150 | a Down in an open contact closes it first; Moves and releases outside a contact emit nothing |
| `Touchscreen.Device.EmitRelease` | crates/daemon/src/input.rs:152-166 | a release closes the contact at its last position |
| `Touchscreen.StreamIsWellFormed` | crates/daemon/src/input.rs:111-166 | for every action sequence a reader of protocol B, to which nothing is shown before the end of a report, accepts the whole stream and after each action is shown the contact open exactly while a finger is down, at the place it was last seen |
| `Touchscreen.IdsCount` | crates/daemon/src/input.rs:168-173 | the k-th contact has id k mod 65535 + 1, one per Down |
| `Touchscreen.IdsDistinct` | crates/daemon/src/input.rs:168-173 | any 65535 contacts in a row have different ids |
| `Touchscreen.ScaleToRange` | crates/daemon/src/input.rs:203 | the nearest position below on the device's scale: in range and reaching both ends |
| `Touchscreen.SweepNeverTurnsBack` | crates/daemon/src/input.rs:111-141 | scaling is monotone: of two Moves the kernel sees the second at or beyond the first wherever the finger was |
| `ForwardProtocol.StreamHeaderRoundTrip` | crates/protocol/src/lib.rs:103-132 | decoding inverts encoding, and 16 bytes are an encoded stream header exactly when they decode and the reserved ones are zero |
| `ForwardProtocol.FrameHeaderRoundTrip` | crates/protocol/src/lib.rs:147-175 | the same for the frame header, with no stray flag bit |
| `ForwardProtocol.ControlRoundTrip` | crates/protocol/src/lib.rs:233-245 | a control payload decodes to a message exactly when it begins with that message's encoding |
| `ForwardProtocol.StreamHeaderSays` | crates/protocol/src/lib.rs:103-132 | what each byte of a stream header says; it is refused exactly for its magic, its version or its codec |
| `ForwardProtocol.FrameHeaderSays` | crates/protocol/src/lib.rs:147-175 | what each byte of a frame header says; stray flag bits and reserved bytes say nothing |
| `ForwardProtocol.ControlSays` | crates/protocol/src/lib.rs:233-245 | what each byte of a control payload says; it is refused exactly for its length or its kind |
| `ForwardStream.FrontOfWire` | android/app/src/main/java/com/moreland/display/Protocol.kt:116-135 | whatever follows, a call's bytes are read as that call if and only if its payload is at most 8 MiB |
| `ForwardStream.StreamRoundTrip` | crates/transport/src/lib.rs:49-102 | the device recovers exactly the calls made if and only if every payload is at most 8 MiB |
| `ForwardStream.PrefixDelivers` | android/app/src/main/java/com/moreland/display/VideoStream.kt:240-251 | a stream cut anywhere delivers the calls whose bytes all arrived and nothing of the others |
| `ForwardTransport.AdvanceSlices` | crates/transport/src/lib.rs:120 | exactly the bytes written are dropped, whichever slices they fall in, and no empty slice is left in front |
| `ForwardTransport.WriteAllVectored` | crates/transport/src/lib.rs:110-123 | under every schedule of positive writes, however small, all bytes reach the socket; the call fails exactly when the socket has refused, with a proper prefix of them there; the loop ends |
| `ForwardTransport.Sender.Connect` | crates/transport/src/lib.rs:21-45 | a sender results exactly when the socket does not refuse, with exactly the stream header on the wire and counted |
| `ForwardTransport.Sender.SendFrame` | crates/transport/src/lib.rs:49-64 | the call succeeds exactly when the socket does not refuse, and then the frame's bytes and only they are added and counted; a failure leaves the counters alone |
| `ForwardTransport.Sender.SendControl` | crates/transport/src/lib.rs:89-102 | the same for a control message written in two pieces, which is no frame |
| `FrameLoop.ReadFully` | android/app/src/main/java/com/moreland/display/Protocol.kt:149-156 | the buffer gets exactly the next bytes however small the reads, and failure means the stream ended first |
| `FrameLoop.ReadFrameHeader` | android/app/src/main/java/com/moreland/display/Protocol.kt:116-135 | the header is taken exactly when 16 bytes are there and the length is plausible |
| `FrameLoop.ReadStreamHeader` | android/app/src/main/java/com/moreland/display/Protocol.kt:85-113 | the stream header is accepted exactly when magic, version and codec are right |
| `FrameLoop.Session.NextFrame` | android/app/src/main/java/com/moreland/display/VideoStream.kt:242-251 | one turn hands on the frame at the front of the stream through a buffer that grows when needed |
| `FrameLoop.Session.Run` | android/app/src/main/java/com/moreland/display/VideoStream.kt:219-251 | a whole connection hands on the same frames under every fragmentation of its bytes |
| `FrameLoop.SessionRoundTrip` | android/app/src/main/java/com/moreland/display/VideoStream.kt:223-251 | over a whole session the device hands on what the host meant, length, timestamp, flags and payload, exactly when every payload fits |
| `FrameLoop.ControlsArrive` | android/app/src/main/java/com/moreland/display/VideoStream.kt:248-287 | every control message is decoded as it was meant, in order, and no video frame is taken for one |
| `FrameLoop.SendAll` | crates/transport/src/lib.rs:49-102 | a run of calls succeeds throughout exactly when the socket never refuses, and otherwise leaves whole calls and a proper part of one |
| `FrameLoop.Relay` | crates/transport/src/lib.rs:19-123 | host to device under every schedule of partial writes and partial reads: without a refusal exactly what was meant is handed on if and only if every payload fits; a refusal costs exactly the calls that had not succeeded |
| `FrameLoop.FailedCallDeliversNothing` | crates/transport/src/lib.rs:110-123 | after a write fails midway the calls that succeeded are delivered and no part of the one that failed |
| `Allocators.FreePort` | crates/daemon/src/main.rs:574-588 | the port is the least free one in range; without one every port below 65536 in the range is held |
| `Allocators.AllocatePort` | crates/daemon/src/main.rs:574-588 | the daemon's loop finds it |
| `Allocators.NameIsFirstFree` | crates/daemon/src/main.rs:610-657 | the name is the first free one on the serial's list, and is refused exactly when all are taken |
| `Allocators.SuffixIsLast` | crates/daemon/src/main.rs:663-670 | the suffix is the last n letters and digits of a serial, in order and lowercased, or all if there are fewer |
| `Allocators.SeparatorIgnored` | crates/daemon/src/main.rs:663-670 | any other character does not count, wherever it stands |
| `Allocators.PortsRunOut` | crates/daemon/src/main.rs:568-588 | a port is refused exactly when as many sessions run as there are ports: 100, or fewer at the top of the range |
| `Allocators.NeverRefusedIff` | crates/daemon/src/main.rs:602-657 | without an explicit name a serial is sure of a name, whatever sessions run, if and only if it is not at most four lowercase letters and digits, or the range is the single port 65535 |
| `Allocators.PlainSerialRefused` | crates/daemon/src/main.rs:652-656 | for every other serial, two sessions that leave it without a name |
| `RefusedTablet.PlainSerialFails` | crates/daemon/src/main.rs:462-484 | and two turns of the daemon that lead there: three tablets plugged in together, two started, the third failed for want of a name though a port is free |
| `ReconcilerRuns.LossStopsNothing` | crates/daemon/src/main.rs:360-379 | however long the tracker is lost, no session is stopped or started, every session whose own thread has not ended still runs, and what is known of the devices stands |
| `ReconcilerRuns.RegistrySafe` | crates/daemon/src/main.rs:512-657 | in every run sessions have distinct ports in range and distinct names from their own lists, an explicit name means at most one session, and a port is refused exactly when all are held |
| `ReconcilerRuns.CooldownsAreOwn` | crates/daemon/src/main.rs:679-746 | in every run a serial's cooldown ends 2000 min(n, 8) ms after the last of its own n failures since its last clean end, whatever other tablets do; what counts as which is `EndsAreLogged` and `StartedUnlessRefused` |
| `ReconcilerRuns.DebouncedIsLongReady` | crates/daemon/src/main.rs:389-393 | the debounce table answers exactly whether the serial was ready at every turn that looked for 600 ms |
| `ReconcilerRuns.SpawnsAreDue` | crates/daemon/src/main.rs:441-484 | outside --once a turn attempts exactly the unregistered serials that were ready throughout the debounce and are past their own cooldown |
| `ReconcilerRuns.OnceSpawnsOnce` | crates/daemon/src/main.rs:411-440 | under --once no serial is started twice; the turn that arms attempts every ready device and no other turn any |
| `ReconcilerRuns.UnreadyStopped` | crates/daemon/src/main.rs:395-409 | after a turn that looks, every unready session's flag is set, no other flag is touched, sessions keep port and name, and new ones are for ready devices |
| `ReconcilerEvents.EndsAreLogged` | crates/daemon/src/main.rs:679-708 | in every turn of every run, a serial is given a clean end or a failure exactly if it has a session whose thread has ended so, once, at the time given; and after that only attempts to start it, if it has no session and the tracker is heard |
| `ReconcilerEvents.EndsSetCooldown` | crates/daemon/src/main.rs:693-746 | while the tracker is lost a clean end removes the serial's cooldown and session, an unclean one removes its session and sets 2000 min(n, 8) ms from its time, and without an end nothing of it changes |
| `ReconcilerEvents.StartedUnlessRefused` | crates/daemon/src/main.rs:518-588 | an attempt starts a session on the least free port and the first free name, unless no port is free, no name is, or the thread does not start: then it is a failure at its time and changes no session |
| `ReconcilerEvents.DueTabletStarts` | crates/daemon/src/main.rs:441-484 | a tablet that is due has a session after the turn, however many others start, if its serial is not plain, the name is not the user's own, threads start and a port is left over |
| `ReconcilerEvents.RegistryFollowsLog` | crates/daemon/src/main.rs:462-484 | in every run a serial has a session, on that port and of that name, exactly when its start is the last thing that happened to it |
| `ReconcilerEvents.TurnLooks` | crates/daemon/src/main.rs:333-440 | a turn looks exactly if the daemon goes on and the tracker is not lost, notes the ready serials at its own time, and arms --once exactly when one of them has been ready long enough |
| `ReconcilerEvents.RunsUntilAllEnded` | crates/daemon/src/main.rs:333-393 | the daemon ends exactly in the first turn that finds --once armed and every session ended; until then the devices it knows are those of the tracker's latest word |
| `Daemon.Loop.BumpCooldown` | crates/daemon/src/main.rs:734-746 | one failure more, and the next attempt 2 min(n, 8) s after this one |
| `Daemon.Loop.ReapFinished` | crates/daemon/src/main.rs:679-708 | finished sessions leave the registry; a clean end clears the cooldown, any other bumps it, as `EndsSetCooldown` has it in numbers |
| `Daemon.Loop.Track` | crates/daemon/src/main.rs:389-393 | the debounce table keeps what is still ready and notes what newly is |
| `Daemon.Loop.StopVanished` | crates/daemon/src/main.rs:399-409 | the flags of exactly the unready sessions are raised |
| `Daemon.Loop.Choose` | crates/daemon/src/main.rs:411-460 | the candidates are those of the transition system, and --once arms when it says |
| `Daemon.Loop.SpawnSession` | crates/daemon/src/main.rs:518-566 | a session gets the least free port and the first free name, or there is none |
| `Daemon.Loop.Start` | crates/daemon/src/main.rs:462-484 | candidates not yet registered are started or backed off, in order |
| `Daemon.Loop.TakeTurn` | crates/daemon/src/main.rs:333-484 | a turn over the mutable tables is the transition system's |
| `Daemon.Loop.RunAll` | crates/daemon/src/main.rs:322-498 | so is a whole run |
| `CaptureCaps.KindsCommute` | crates/capture/src/session.rs:113-118 | any two sets with the same events of each kind in the same order amount to the same, however the kinds are mixed |
| `CaptureCaps.MiddleSetAlone` | crates/capture/src/session.rs:126-136 | a set counts alone among others exactly when they list no format, those before set nothing it leaves out and those after set nothing to another value |
| `CaptureCaps.PickDmabufFormat` | crates/capture/src/session.rs:745-775 | the search over preferred formats and modifiers finds the specified choice |
| `CaptureCaps.PickedIsShared` | crates/capture/src/session.rs:739-775 | a restricted consumer gets one modifier, the first of its own that is offered, in the preferred format that shares one; nothing exactly when none does |
| `CaptureGenerations.NotesAre` | crates/capture/src/session.rs:107-136 | handled event by event, the handler's three fields come to what everything since the last build amounts to: its constraints, whether a Done has followed one, whether any has come |
| `CaptureGenerations.RebuiltFromLatest` | crates/capture/src/session.rs:107-136 | whatever arrives around a complete set, the constraints are then settled, and they are that set's alone if and only if nothing before or after it counts |
| `CaptureGenerations.OlderModifiersWin` | crates/capture/src/session.rs:195-202 | with two sets pending, a format in both is taken with the first set's modifiers |
| `CaptureSteps.RunSound` | crates/capture/src/session.rs:126-136 | in every session, whatever the dispatches deliver and the environment refuses, each event delivered belongs to exactly one generation, in order, none dropped or used twice; no pool is built from unsettled constraints; the pool is the one the generations determine, of the first size until a change is reported |
| `CaptureSteps.PoolOfOneSet` | crates/capture/src/session.rs:430-577 | renegotiating with a complete set among the events since the last build builds at once, and from that set alone, in whatever order its kinds came, if and only if nothing around it counts; no pool is left if the set allows none (what pool a set allows is `PoolSays`) |
| `CaptureSteps.RebuiltFromStale` | crates/capture/src/session.rs:536-548 | with no new constraint event nothing is awaited and, unless refused, the same pool is built again |
| `CaptureSteps.OneOutcome` | crates/capture/src/session.rs:590-662 | short of a refusal the dispatches decide what a call takes, returns and leaves |
| `CapturePools.PoolSays` | crates/capture/src/session.rs:430-529 | events allow a pool exactly if they give a size and a usable format; it has the last width and height sent, as many buffers of that size as configured, and XRGB8888 if listed (for DMA-BUF, with a modifier the consumer takes), otherwise ARGB8888 |
| `CapturePools.PoolIsAsSent` | crates/capture/src/session.rs:430-529 | in every state of every session the pool has the last size and the preferred format sent in the last generation that held any constraint, whole or given up |
| `CapturePools.SettledIs` | crates/capture/src/session.rs:107-136 | constraints are settled exactly if those of the pool in use stand, or a Done has come after a newer one |
| `CapturePools.WaitsUntilEnough` | crates/capture/src/session.rs:539-548 | opening or renegotiating takes dispatches up to the first after which the constraints are settled or the session has stopped, and none beyond |
| `CapturePools.OpenSays` | crates/capture/src/session.rs:385-426 | opening succeeds exactly if the events it takes say Done, not Stopped, and both a size and a usable format, and nothing is refused; its pool is then of that size and format |
| `CapturePools.RenegotiatedSays` | crates/capture/src/session.rs:536-577 | renegotiating succeeds exactly with a new pool of the old width and height; a pool of another size is kept, reported and a failure; a failed build leaves none |
| `CapturePools.FrameKeepsSize` | crates/capture/src/session.rs:556-599 | a call returns a frame only if it leaves the pool at the size at which it found it |
| `CapturePools.OutcomeSays` | crates/capture/src/session.rs:601-662 | a capture takes the dispatches up to the first that ends the frame; it is a frame exactly if they say Ready and no failure, in the next buffer with the last time given, and a rejection exactly if that is the last known reason |
| `CaptureHalfSet.HalfSetRun` | crates/capture/src/session.rs:536-548 | for any sets, a session that builds from one set and half of the next, and loses its pool to the other half |
| `CaptureHalfSet.HalfASet` | crates/capture/src/session.rs:536-548 | such a session in which each of three complete sets alone allows a pool: it captures into one with the second's modifiers on the third's device, and then has none |
| `CaptureSession.Capture.OnSessionEvent` | crates/capture/src/session.rs:176-206 | one event changes the handler's three fields as `NotesAre` accounts for |
| `CaptureSession.Capture.Dispatch` | crates/capture/src/session.rs:138-237 | a dispatch delivers all its events, session and frame, in order, and fails only when the connection has |
| `CaptureSession.Capture.AllocatePool` | crates/capture/src/session.rs:430-529 | a pool is built from the constraints that apply exactly when they allow one and no buffer is refused; otherwise there is none |
| `CaptureSession.Capture.Open` | crates/capture/src/session.rs:385-426 | opening takes dispatches up to the first settled set and succeeds exactly when it is not stopped, the set allows a pool and nothing is refused |
| `CaptureSession.Capture.Renegotiate` | crates/capture/src/session.rs:536-577 | dispatches are taken until the constraints are settled and no longer, the pool is rebuilt from all that has arrived since the last, and the call succeeds exactly when that is possible, not refused and of the old size; a change of size is reported |
| `CaptureSession.Capture.TryCaptureFrame` | crates/capture/src/session.rs:601-662 | a capture takes the dispatches up to the frame's end and returns a frame in the pool's next buffer, with its time, exactly when it is ready and no failure was noted |
| `CaptureSession.Capture.CaptureFrame` | crates/capture/src/session.rs:590-599 | a rejected pool is renegotiated and the capture tried once more; result, dispatches taken and new state are those determined; indices go round robin |
| `CaptureSession.Capture.NextFrame` | crates/capture/src/session.rs:685-702 | over a whole session every frame handed on is a DMA-BUF of the size it opened with until a change of geometry is reported, across any number of rebuilds |
| `Scaling.NarrowingLoses` | crates/transport/src/adb.rs:159 | the 32-bit cast loses nothing except for a panel one pixel wide and 2^31 high |
| `Scaling.ResolutionFits` | crates/transport/src/adb.rs:156-165 | for a landscape panel: even, within the cap by less than two pixels, no higher than a panel of two lines or more, aspect kept to within two lines |
| `Scaling.UnscaledExactlyWhenItFits` | crates/transport/src/adb.rs:156-165 | a panel of at least two by two is left alone exactly when it is even on both axes and no wider than the cap, or two wide |
| `Scaling.ResolutionFitsHeader` | crates/transport/src/lib.rs:126-133 | with a 16-bit cap neither axis loses bits in the stream header |
| `LuaString.Print` | crates/daemon/src/output.rs:243-260 | the loop prints the escaped string between quotes |
| `LuaString.PrintedReadsBack` | crates/daemon/src/output.rs:243-260 | by the rules for short literal strings in section 3.1 of the Lua 5.4 Reference Manual every string reads back as itself, and the literal ends where it was ended whatever follows |
| `KwinConfig.RewriteFile` | crates/daemon/src/input.rs:266-281 | the loop keeps exactly the lines outside the device's section (`KeptByPosition`) and appends a fresh one |
| `KwinConfig.KeptByPosition` | crates/daemon/src/input.rs:267-276 | a line is kept exactly if the nearest header at or before it, if there is one, does not trim to the device's section; the kept lines stay in order |
| `KwinConfig.KeptFromHeader` | crates/daemon/src/input.rs:267-276 | from any header on, what is kept does not depend on what came before |
| `KwinConfig.CheckByPosition` | crates/daemon/src/input.rs:252-258 | the check succeeds exactly if the value stands below the first line that begins like the header and above the next one; the test that the file contains the header adds nothing |
| `KwinConfig.LinesAre` | crates/daemon/src/input.rs:252 | a line ends at a line feed with at most one carriage return before it; the last may end at neither |
| `KwinConfig.TrimIs` | crates/daemon/src/input.rs:255-258 | trimming takes all the white space at both ends and nothing else |
| `KwinConfig.LinesOfRewrite` | crates/daemon/src/input.rs:266-281 | read back, the new file has those lines in order, an empty one, the header and the value; the lines are as they were exactly when none ended in a carriage return of its own |
| `KwinConfig.RewriteTakesHold` | crates/daemon/src/input.rs:252-281 | after the rewrite the check succeeds if and only if the value stands below the first kept line that begins like the header, or there is no such line and the output's name does not end in white space |
| `KwinConfig.AssociateSettles` | crates/daemon/src/input.rs:244-289 | if the first start makes the check true no later one changes the file; if not, every start rewrites it and leaves it one line longer |
| `KwinConfig.LongerHeaderNeverSettles` | crates/daemon/src/input.rs:252-258 | one such file for all names: a line that goes on after the header |
| `KwinConfig.TrailingSpaceNeverSettles` | crates/daemon/src/input.rs:258 | another: the empty file, for an output whose name ends in white space |

## Left out

- VideoStream.Stream.SendTouch: takes coordinates already converted to 16 bits; the float conversion is not modelled.
- VideoStream.Stream.WriterNext: `running`, interruption and socket errors are not modelled; an error is the end of a run.
- Pointer.PointerInput.RelativeDelta: computes in exact reals; the rounding of 32-bit floats is not modelled.
- Pointer.PointerInput.OnDown: the two clock readings of one handler call are one reading.
- Touchscreen.Device.Send: a failed write to the input device is not modelled.
- RoundTrips.RecordedTrip: the decoder is taken to keep frames in order and to render each at most once.
- ForwardTransport.Sender.SendFrame: the 64-bit counters are unbounded here.
- ForwardTransport.WriteAll: an interrupted write counts as a refusal, though the library's `write_all` would try again.
- Daemon.Loop.BumpCooldown: the 32-bit failure counter is unbounded here.
- Daemon.Loop.TakeTurn: the shutdown signal, the timed run, the parallel join at exit, per-serial overrides and the log are not modelled.
- CaptureSession.Capture.AllocatePool: the contents of buffers and the modifier an allocator settles on are not modelled; a failed allocation is a refusal of the environment's.
- CaptureSession.Capture.NextFrame: duplicating the buffer's descriptor is not modelled.
- CaptureSession.Capture.Open: begins once output, source and session objects exist.
- LuaString.PrintedReadsBack: works on characters; an escape that would build a byte sequence that is no character is not modelled.
- KwinConfig.RewriteTakesHold: names are taken to contain no line feed; reading and writing the file and the reload are not modelled.
- What the device does with a frame once read: decoder input buffers, starvation drops and the listener's clamping of control values.
- Restarting a session on the device while an old writer is still ending: one session is modelled, after it has cleared the queue and the slot.
- Wayland, DMA-BUF, PipeWire, GStreamer, uinput, MediaCodec and adb themselves: each is an environment that delivers events, bytes or failures.
- The encoder crate, the Plasma source, discovery, the command line, statistics and the activity's user interface: thin over libraries, with no state machine of their own.
- Output creation and compositor commands beyond string printing and the `kcminputrc` rewrite.
