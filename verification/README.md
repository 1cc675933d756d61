# Verified model of the RustDesk session engine

This project models the stateful machines of the Rust session engine in `rustdesk_ffi/src`, and the Git tree
reconstruction of `scripts/verify_moonlight_vendor.py`, in Dafny, and proves what they keep over whole runs.

Objects whose methods change them are classes with the same fields; each method is proved against a function on a value
model, and the properties of runs are lemmas about those functions. Where threads interleave, the machine is a state
machine whose steps are the critical sections and single atomic accesses of the code, and every property holds for every
sequence of enabled steps. Peers, sockets, clocks, files and the scheduler are parameters: scripts of what will arrive
and how each read, write or check will turn out, over which everything is quantified.

| files | machine |
|---|---|
| `ControlMessages`, `InboxModel`, `ControlInbox` | the control inbox: vocabulary, value model, and the object that refines it |
| `InboxOrder`, `InboxLog`, `InboxFates`, `InboxLedger` | its emission order, its queue against a reference log, and conservation of deltas |
| `InboxGates`, `InboxSlots` | what it accepts and what its latest-value slots hold, from the operations of a run alone |
| `TouchGrammar`, `TouchBoundary`, `ScaleMerge`, `Revocation`, `PhoneFence` | the touch-gesture protocol and the scales that break it, fixed-point scale merging, permission denials, and the phone gate as an interleaved protocol |
| `WireFormat`, `FrameReaders` | the frame codec, its three decoders and the buffering reader |
| `SecureChannel`, `StreamingWriter`, `Publications`, `ReceiptTimes` | nonces over an ideal cipher, the single-writer scheduler, publication receipts, and when they expire |
| `FileLanes`, `LaneOutcomes` | the lane hand-off and job life, and how a run ends each job and keeps each connection |
| `UploadLog`, `UploadProtocol`, `DownloadProtocol` | what an upload's record may hold, and the two transfer protocols |
| `CursorCache`, `CursorHistory` | the cursor shape cache against a plain map and against the history of stores and evictions |
| `DisplayState`, `DisplayRuns` | the display machine and what it keeps over runs |
| `RemotePaths` | remote path splitting, joining, and recursive removal |
| `GitTree`, `GitObjects`, `GitFormat`, `VendorTree`, `LinkNames` | rebuilding a Git tree, its object ids and their bytes, the check as a whole, and gitlink names that hold a NUL |

Statements that are false of the code are kept as they are in the code, with a lemma that gives the failing input and,
beside it, the exact condition:

- A pan start is the one reliable message that does not flush a pending wheel delta, so the delta can later be emitted
  behind newer messages (`InboxOrder.WheelPanStartKey`; exactly when: `InboxOrder.OvertakingIsExact`).
- Merging small positive scales can round to 0, the end marker, which then goes out uncounted
  (`TouchBoundary.RoundedScaleEndsEarly`), and a negative scale bypasses the gesture protocol; exactly when the wire and
  the counters suffer: `TouchBoundary.WireExactly`, `TouchBoundary.CountersExactly`, and for what is accepted
  `TouchGrammar.AcceptanceExactly`.
- A key whose hand-over began before the phone gate was installed is handed over after a close
  (`PhoneFence.UnleasedHandOverOutlivesClose`; exactly when: `PhoneFence.GuardedExactly`), and after 2^64 closes the epoch
  repeats (`PhoneFence.EpochWrapForgets`; exactly when: `PhoneFence.CloseLimitExact`).
- A denial of several permissions in one mask removes nothing that is queued (`Revocation.CombinedDenialRemovesNothing`;
  exactly when: `Revocation.DenialClearsExactly`); the callers pass one bit at a time.
- Within 4095 frames of the end of the u64 nonce space the receiver's search wraps and opens old frames again
  (`SecureChannel.WrappedSearchReplays`; exactly when: `SecureChannel.NoReplayExactly`).
- A message that is sent may still read as failed: when an observer had found its receipt expired just before the write
  began, or when a shutdown or a revocation refuses it during the write (`Publications.SentMayReadFailed`,
  `Publications.RefusalIgnoresWriting`; exactly when: `Publications.ConfirmedReadsWrittenExactly`).
- `removable_remote_path` accepts a base with a backslash on any peer; below such a base a peer that is not Windows
  reads a joined name as part of the base's last component (`RemotePaths.ForeignBaseEscapes`; exactly when:
  `RemotePaths.JoinExtendsExactly`).
- A session whose login shows a display at most one pixel wide or high starts with a fallback size that its catalogue
  does not show, until the next refresh or switch (`DisplayRuns.UnmirroredLogin`; exactly when: `DisplayRuns.StartIsGood`).
- After 2^32 - 1 geometry changes the epoch repeats for another geometry (exactly when:
  `DisplayRuns.EpochRepeatsExactly`).
- A gitlink name of the lock may hold a NUL, and then one root id can stand for two accepted components
  (`LinkNames.FiveConfuse`, `LinkNames.SplitNameConfuses`; exactly when: `LinkNames.TailsExact`, and for a single gitlink
  `LinkNames.AmbiguousExactly`).

To verify: `dafny verify dfyconfig.toml` with Dafny 4.11.

## Model

| member | source | states |
|---|---|---|
| `ControlInbox.Controls.Put` | rustdesk_ffi/src/control_inbox.rs:169-296 | an enqueue accepts exactly what the gates and the gesture protocol admit, and has the effect of `Enqueue` on the value model, on which all run properties below are proved |
| `ControlInbox.Controls.StoreTouch` | rustdesk_ffi/src/control_inbox.rs:236-289 | the touch branches: acceptance is `Admits`, the new state is `StoreAt`, a refusal changes nothing |
| `ControlInbox.Controls.TakeBatchOf` | rustdesk_ffi/src/control_inbox.rs:298-359 | the batch loop emits at most the limit, and exactly the drained order of the value model followed by refresh and pressure |
| `ControlInbox.Controls.TakeNext` | rustdesk_ffi/src/control_inbox.rs:612-677 | one round of the loop on the chosen slot leaves the total result of the drain unchanged, also when a touch slot empties in two parts or meets the limit between them |
| `ControlInbox.Controls.FlushCoalescedPointerUpdates` | rustdesk_ffi/src/control_inbox.rs:481-518 | the slots become queue entries, older slot first |
| `ControlInbox.Controls.DiscardPermissionControls` | rustdesk_ffi/src/control_inbox.rs:543-563 | removes exactly what the lost permission protects, and ends gestures with the keyboard |
| `ControlInbox.Controls.UpdatePermissionMask` | rustdesk_ffi/src/control_inbox.rs:411-435 | a revocation discards and a later enqueue is refused; an empty mask changes nothing |
| `ControlInbox.Controls.SetPhoneGeometryReady` | rustdesk_ffi/src/control_inbox.rs:386-396 | closing bumps the epoch and sweeps keyboard input; opening only opens |
| `InboxOrder.NextIsOldest` | rustdesk_ffi/src/control_inbox.rs:612-650 | the place taken next holds a smallest pending sequence number |
| `InboxOrder.FlushOrderExact` | rustdesk_ffi/src/control_inbox.rs:481-497 | a flushing message leaves the queue sorted if and only if no queued message is newer than the pending wheel delta |
| `InboxOrder.RunOrdered` | rustdesk_ffi/src/control_inbox.rs:169-359 | over every run without such an overtaking the messages of all batches have nondecreasing sequence numbers |
| `InboxOrder.WheelIdleNeverOvertakes` | rustdesk_ffi/src/control_inbox.rs:236-246 | a run that accepts no pan start while a wheel delta is pending never overtakes |
| `InboxOrder.OvertakingIsExact` | rustdesk_ffi/src/control_inbox.rs:481-497 | after an ordered run, every later batch stays ordered behind a flushing message if and only if no wheel delta is overtaken |
| `InboxOrder.WheelPanStartKey` | rustdesk_ffi/src/control_inbox.rs:236-246 | the excluded run: wheel, pan start, key come out as pan start, wheel, key |
| `InboxOrder.DrainEmitsQueue` | rustdesk_ffi/src/control_inbox.rs:298-359 | draining everything emits the whole queue front to back |
| `InboxFates.ReliableExactlyOnce` | rustdesk_ffi/src/control_inbox.rs:169-359 | against an append-only log of fates: accepted reliable messages are its direct entries in acceptance order, waiting entries are the queue, sent entries are what the queue emitted |
| `InboxFates.FatesAreFinal` | rustdesk_ffi/src/control_inbox.rs:169-359 | an entry is sent or dropped once and never changes again |
| `InboxFates.NothingLostUnrevoked` | rustdesk_ffi/src/control_inbox.rs:520-563 | without a revocation or a phone close no accepted reliable message is ever discarded |
| `InboxFates.DropsExactly` | rustdesk_ffi/src/control_inbox.rs:520-563 | exactly which waiting entries an operation drops: stale deltas at a display switch, protected ones at a denial of just their permission, keyboard input at a phone close |
| `InboxGates.AcceptsExactly` | rustdesk_ffi/src/control_inbox.rs:169-296 | from the operations of a run alone: a shutdown is accepted always, any other message if and only if the last word on its permission and on the phone gate lets it through and it moves or has its place in the gesture |
| `InboxGates.GatesFromOps` | rustdesk_ffi/src/control_inbox.rs:386-435 | permission masks, phone gate and shutdown flag are what the last operation on each of them said |
| `InboxSlots.SlotsHoldLatest` | rustdesk_ffi/src/control_inbox.rs:190-230 | over every run the mouse and display-switch slots, the refresh flag and the pressure level hold exactly the last message of their kind that was let through and neither emitted nor discarded since, under its own number |
| `InboxSlots.LatestExactly` | rustdesk_ffi/src/control_inbox.rs:190-230 | that reference by position: a message waits if and only if nothing since replaced, discarded or emitted it |
| `InboxSlots.BatchBringsLatest` | rustdesk_ffi/src/control_inbox.rs:298-359 | a batch returns of each such kind nothing or exactly the waiting message, and returns it once it has room for what is pending before it |
| `InboxSlots.SlotBooksBalance` | rustdesk_ffi/src/control_inbox.rs:190-359 | of every such kind: let through = emitted + replaced + discarded + waiting |
| `InboxSlots.TailComesLast` | rustdesk_ffi/src/control_inbox.rs:298-359 | a batch ends with a refresh, a pressure level or both in this order, and holds neither before |
| `InboxLedger.DeltasConserved` | rustdesk_ffi/src/control_inbox.rs:190-273 | accepted = emitted + held + discarded on both axes of pan and wheel, over every run that stays in i32 range |
| `InboxLedger.StepConserves` | rustdesk_ffi/src/control_inbox.rs:481-563 | the same balance for one operation, with what a display switch, a pan start, a revocation or a phone close throws away |
| `InboxLedger.ConservationIsExact` | rustdesk_ffi/src/control_inbox.rs:583-610 | a merge keeps the balance if and only if it does not saturate |
| `TouchGrammar.WireKeepsGrammar` | rustdesk_ffi/src/control_inbox.rs:236-289 | over every run with sound scales the emitted touch messages are updates, at most one scale end, at most one pan end per gesture, through discards and flushes, and the two counters equal the end markers still queued |
| `TouchGrammar.AcceptanceKeepsGrammar` | rustdesk_ffi/src/control_inbox.rs:236-289 | on every run that accepts no negative scale the accepted touch messages follow the grammar, and the flags are where they stand or refuse all until the next start |
| `TouchGrammar.AcceptanceExactly` | rustdesk_ffi/src/control_inbox.rs:236-294 | the accepted messages of a run follow the grammar if and only if it accepted no negative scale |
| `TouchBoundary.WireExactly` | rustdesk_ffi/src/control_inbox.rs:236-294 | after a run with sound scales and for any admitted scale: everything that can follow soundly keeps the wire grammar if and only if that scale is not negative and does not merge to 0 |
| `TouchBoundary.CountersExactly` | rustdesk_ffi/src/control_inbox.rs:565-581 | and the counters stay the numbers of queued end markers under everything that can follow if and only if it does not merge to 0 |
| `TouchBoundary.DrainAllPhase` | rustdesk_ffi/src/control_inbox.rs:298-359 | taking everything brings the wire exactly to where what was sent and what was pending lead |
| `TouchBoundary.ZeroProductExact` | rustdesk_ffi/src/control_inbox.rs:722-725 | two positive scales merge into the end marker if and only if their product is below 1000 |
| `TouchBoundary.RoundedScaleEndsEarly` | rustdesk_ffi/src/control_inbox.rs:565-581 | the run in which two tiny scales flush as an end marker that no counter knows of |
| `ScaleMerge.MergedBelowProduct` | rustdesk_ffi/src/control_inbox.rs:565-581 | merging n positive scales never exceeds the exact product over 1000^(n-1) |
| `ScaleMerge.MergedNearProduct` | rustdesk_ffi/src/control_inbox.rs:722-725 | with factors of at most 1000 it falls short by at most n-1 and the clamp never fires |
| `ScaleMerge.SlotHoldsMerge` | rustdesk_ffi/src/control_inbox.rs:565-581 | in an open stream the touch slot holds exactly this merge |
| `ScaleMerge.CombinesTowardZero` | rustdesk_ffi/src/control_inbox.rs:722-725 | a merge of any two scales rounds toward zero by less than one unit and saturates exactly when the quotient does not fit |
| `PhoneFence.ClosedInputNeverHandedOver` | rustdesk_ffi/src/connector.rs:3223-3227 | under every interleaving with fewer than 2^64 closes, what is handed over under a lease was accepted after the latest close, also when it had already been dequeued and the gate has reopened |
| `PhoneFence.InstalledMeansFenced` | rustdesk_ffi/src/control_inbox.rs:361-396 | from any reached moment with the gate installed and no keyboard-class message in flight, every one handed over later, in any run, is leased and was accepted after the latest close |
| `PhoneFence.GuardedExactly` | rustdesk_ffi/src/control_inbox.rs:376-384 | in a reached state with the gate installed, every run leases all its later keyboard-class hand-overs if and only if none is in flight |
| `PhoneFence.UnleasedHandOverOutlivesClose` | rustdesk_ffi/src/control_inbox.rs:376-396 | the excluded run: a key whose hand-over began before the gate was installed is handed over after the first close |
| `PhoneFence.CloseLimitExact` | rustdesk_ffi/src/control_inbox.rs:364-396 | in every run the leased hand-overs after at most n closes are current, if and only if n is below 2^64 |
| `PhoneFence.EpochWrapForgets` | rustdesk_ffi/src/control_inbox.rs:386-396 | the run of 2^64 closes in which the epoch repeats and a batch taken before the first one passes |
| `PhoneFence.ClosingRefinesInbox` | rustdesk_ffi/src/control_inbox.rs:386-396 | the interleaved close, run without interruption, is the inbox operation |
| `PhoneFence.PuttingRefinesInbox` | rustdesk_ffi/src/control_inbox.rs:169-190 | an enqueue run without interruption, leased or not, is the inbox operation |
| `PhoneFence.TakingRefinesInbox` | rustdesk_ffi/src/control_inbox.rs:361-372 | and so is a batch, of which every message is carried |
| `PhoneFence.LeasesFollowGate` | rustdesk_ffi/src/connector.rs:3223-3227 | under every interleaving a leased message is stored only while the gate was last opened, and the next one of a batch is handed over if and only if it was and the epoch is still the one the batch was taken in |
| `Revocation.NothingDeniedEmitted` | rustdesk_ffi/src/control_inbox.rs:406-435 | from a denial until the permission returns, over every run, nothing it protects is accepted, kept or emitted |
| `Revocation.DenialShuts` | rustdesk_ffi/src/control_inbox.rs:411-435 | a denial of one permission takes effect at once on what is queued and on what is enqueued later |
| `Revocation.DenialClearsExactly` | rustdesk_ffi/src/control_inbox.rs:543-563 | a denial leaves nothing it protects queued if and only if it names one permission or nothing was queued |
| `Revocation.CombinedDenialRemovesNothing` | rustdesk_ffi/src/control_inbox.rs:543-563 | a denial of several permissions at once removes nothing that is queued |
| `WireFormat.HeaderRoundTrip` | rustdesk_ffi/src/protocol/wire.rs:211-272 | a header announces its own size and decodes to the length it was written for |
| `WireFormat.HeaderIsShortest` | rustdesk_ffi/src/protocol/wire.rs:251-272 | a header is written for every length below 2^30, in as few bytes as hold it |
| `WireFormat.ParsesExactly` | rustdesk_ffi/src/protocol/wire.rs:171-223 | bytes are read as a frame if and only if they start with any header of the payload's length, shortest or not, and then the payload |
| `WireFormat.RefusesExactly` | rustdesk_ffi/src/protocol/wire.rs:171-223 | and refused if and only if they start with any header of a length beyond the maximum |
| `WireFormat.OversizeRefused` | rustdesk_ffi/src/protocol/wire.rs:171-223 | an oversized header is refused as soon as it is there |
| `WireFormat.FrameRoundTrip` | rustdesk_ffi/src/protocol/wire.rs:171-223 | a written frame is parsed back whole, whatever follows |
| `WireFormat.FramePrefixIncomplete` | rustdesk_ffi/src/crypto_channel.rs:610-655 | a proper prefix of a frame is never taken for anything |
| `WireFormat.ParseIsStable` | rustdesk_ffi/src/crypto_channel.rs:610-655 | more bytes never change a verdict that was reached |
| `WireFormat.ChunkingIrrelevant` | rustdesk_ffi/src/crypto_channel.rs:239-298 | feeding a buffer chunk by chunk equals parsing the whole stream, well-formed or not |
| `WireFormat.WrittenFramesArrive` | rustdesk_ffi/src/crypto_channel.rs:610-655 | any payloads up to the maximum, cut anyhow, come out exactly and in order, and only the unfinished part stays |
| `FrameReaders.ReadExact` | rustdesk_ffi/src/protocol/wire.rs:15-36 | fills the buffer with the next bytes of the stream despite short and interrupted reads; each failure has its cause |
| `FrameReaders.ReadFrame` | rustdesk_ffi/src/protocol/wire.rs:15-36 | the result is what the bytes ahead parse to and a frame is consumed exactly; errors only at the end, a failure or a timeout of the stream |
| `FrameReaders.ReadExactUntil` | rustdesk_ffi/src/protocol/wire.rs:111-157 | the same, riding out timeouts: an idle deadline only when nothing was taken, a deadline only without polls left, a cancellation only when asked for |
| `FrameReaders.ReadFrameCancellable` | rustdesk_ffi/src/protocol/wire.rs:56-109 | decodes the same bytes as `ReadFrame` to the same result; with more polls than the stream has reads and bytes no deadline is reported; it succeeds only on polls made before the cancellation |
| `FrameReaders.FrameBuffer.TryTakeFrame` | rustdesk_ffi/src/crypto_channel.rs:610-655 | takes exactly the frame at the front, or nothing without a change |
| `FrameReaders.FrameBuffer.ReadFrameWithPump` | rustdesk_ffi/src/crypto_channel.rs:239-268 | every byte is accounted for on every outcome; the pump runs after every read that delivered something and for the frame, and only a failing pump drops a frame it had just taken |
| `SecureChannel.CryptoChannel.SendDirect` | rustdesk_ffi/src/crypto_channel.rs:148-163 | a successful send is the next consecutive nonce, a failed one spends none |
| `SecureChannel.CryptoChannel.StartStreamingWriter` | rustdesk_ffi/src/crypto_channel.rs:124-139 | the writer continues at the nonce reached; starting twice changes nothing |
| `SecureChannel.CryptoChannel.WriterSend` | rustdesk_ffi/src/crypto_channel.rs:355-371 | the writer thread keeps the same numbering, so all written frames carry 1, 2, 3, … across the hand-over |
| `SecureChannel.CryptoChannel.TryDecrypt` | rustdesk_ffi/src/crypto_channel.rs:300-320 | opens exactly the frames sealed at most 4096 ahead and moves to their nonce; otherwise nothing changes |
| `SecureChannel.CryptoChannel.RecvFrame` | rustdesk_ffi/src/crypto_channel.rs:179-237 | refines `Recv` and consumes at most nine frames |
| `SecureChannel.OpensExactly` | rustdesk_ffi/src/crypto_channel.rs:300-320 | away from the end of the nonce space a frame opens if and only if it lies 1 to 4096 ahead |
| `SecureChannel.RecvConsumes` | rustdesk_ffi/src/crypto_channel.rs:179-237 | what one receive consumes, returns and leaves as its nonce |
| `SecureChannel.CallsDeliver` | rustdesk_ffi/src/crypto_channel.rs:179-237 | a receiver that calls again after every frame and every resync limit returns exactly the frames that open one after another: the limit of eight neither loses nor adds one |
| `SecureChannel.InOrderDelivery` | rustdesk_ffi/src/crypto_channel.rs:148-320 | from sender to receiver, across the end of the nonce space: with fewer than 4096 frames missing before each new one, and at most eight repeated or foreign frames in a row, every new frame is returned, in order, without an error |
| `SecureChannel.NoReplay` | rustdesk_ffi/src/crypto_channel.rs:179-320 | whatever the network does with up to 2^64 - 4096 written frames, returned frames have strictly increasing nonces and were written |
| `SecureChannel.NoReplayExactly` | rustdesk_ffi/src/crypto_channel.rs:179-320 | no stream of genuine frames makes a fresh receiver return a frame twice if and only if at most 2^64 - 4096 frames were written |
| `SecureChannel.WrappedSearchReplays` | rustdesk_ffi/src/crypto_channel.rs:300-320 | the first frame opens again at a later nonce if and only if that nonce is more than 2^64 - 4096 |
| `SecureChannel.LargeGapIsFinal` | rustdesk_ffi/src/crypto_channel.rs:300-320 | after 4096 or more frames lost in a row nothing later is ever received |
| `StreamingWriter.Shared.Take` | rustdesk_ffi/src/crypto_channel.rs:416-446 | take_next up to the point where it would sleep |
| `StreamingWriter.Shared.PopAck` | rustdesk_ffi/src/crypto_channel.rs:466-477 | one credit is taken if and only if there is one and a payload |
| `StreamingWriter.Shared.EnqueueControl` | rustdesk_ffi/src/crypto_channel.rs:522-562 | admission, refusal order, the receipt checks at the start and right before the push, and the bound of 128 |
| `StreamingWriter.Shared.EnqueueAck` | rustdesk_ffi/src/crypto_channel.rs:568-590 | one more credit; the payload is replaced even when the count would overflow |
| `StreamingWriter.RunSound` | rustdesk_ffi/src/crypto_channel.rs:392-477 | over every interleaving a payload is stored exactly while credits are pending, and at most 128 controls are queued |
| `StreamingWriter.CreditsConserved` | rustdesk_ffi/src/crypto_channel.rs:466-477 | accepted credits = emitted + pending |
| `StreamingWriter.ControlsConserved` | rustdesk_ffi/src/crypto_channel.rs:522-562 | without a write error controls leave in acceptance order and none is lost |
| `StreamingWriter.ControlsInOrder` | rustdesk_ffi/src/crypto_channel.rs:407-446 | with or without an error what left is a prefix of what was accepted |
| `StreamingWriter.AckWithinEightControls` | rustdesk_ffi/src/crypto_channel.rs:416-446 | while a credit is pending at most eight controls leave before an acknowledgement |
| `StreamingWriter.StopsOnlyWhenDone` | rustdesk_ffi/src/crypto_channel.rs:416-446 | the writer ends if and only if it is closed with nothing left |
| `StreamingWriter.PendingCreditKeepsBusy` | rustdesk_ffi/src/crypto_channel.rs:416-446 | with a credit pending it neither sleeps nor stops |
| `StreamingWriter.ScheduleExactly` | rustdesk_ffi/src/crypto_channel.rs:416-446 | when both wait, an acknowledgement goes first if and only if the last eight things written were controls, else the control accepted first |
| `StreamingWriter.AdmittedExactly` | rustdesk_ffi/src/crypto_channel.rs:522-562 | a control is accepted if and only if its receipt is pending at both looks, nothing broke or dropped the writer before, and fewer than 128 wait |
| `StreamingWriter.RefusedBecause` | rustdesk_ffi/src/crypto_channel.rs:522-590 | the reason of every refusal, from the operations of the run: receipt, write error, shutdown, room, receipt again; for credits error, shutdown, overflow |
| `StreamingWriter.AckCarriesLatest` | rustdesk_ffi/src/crypto_channel.rs:466-477 | every acknowledgement carries the payload offered last |
| `Publications.ReceiptsAreHonest` | rustdesk_ffi/src/clipboard_publication.rs:12-76 | under every interleaving: written implies the send returned Ok, dropped tokens are terminal, at most 64 entries, settled marks never change |
| `Publications.SettledIsFinal` | rustdesk_ffi/src/clipboard_publication.rs:12-33 | no access changes a settled mark |
| `Publications.EvictionSparesPending` | rustdesk_ffi/src/clipboard_publication.rs:83-99 | the table never loses a pending receipt |
| `Publications.ConfirmedReadsWrittenExactly` | rustdesk_ffi/src/clipboard_publication.rs:40-76 | from a confirmed start of a write on: in no run the message is sent and its receipt reads failed, if and only if no observer that found it expired is left to act and nothing refuses it |
| `Publications.ConfirmedReadsWritten` | rustdesk_ffi/src/clipboard_publication.rs:40-72 | in that case every run that reports the write reads written |
| `Publications.SentMayReadFailed` | rustdesk_ffi/src/clipboard_publication.rs:13-26 | the converse of honesty fails: the interleaving in which an earlier observer fails a message that goes out |
| `Publications.RefusalIgnoresWriting` | rustdesk_ffi/src/clipboard_publication.rs:101-106 | and the one in which a shutdown does |
| `ReceiptTimes.SentOnlyWhilePending` | rustdesk_ffi/src/clipboard_publication.rs:40-60 | a message whose write is not confirmed can still be sent in some run if and only if its receipt is pending; settled while it waits, it is not even begun |
| `ReceiptTimes.ExpiresExactly` | rustdesk_ffi/src/clipboard_publication.rs:12-26 | a receipt that nothing refuses and whose token is kept can fail in a run of n seconds from its making if and only if n is at least 5 |
| `Publications.Table.FirstSettled` | rustdesk_ffi/src/clipboard_publication.rs:83-99 | finds the lowest settled id; receipts read on the way may only expire |
| `Publications.Table.ReserveId` | rustdesk_ffi/src/clipboard_publication.rs:83-99 | refused if and only if the ids are used up or the full table is all pending; a full table with a settled receipt loses the lowest settled one, and only that |
| `Publications.Table.State` | rustdesk_ffi/src/clipboard_publication.rs:101-111 | reads one receipt, failing it first at shutdown or expiry, and no other |
| `FileLanes.TransferJob.RequestCancel` | rustdesk_ffi/src/file_transfer.rs:145-159 | a cancel takes effect only on a running job |
| `FileLanes.TransferJob.CheckNow` | rustdesk_ffi/src/file_transfer.rs:161-201 | the job check and its order of reasons |
| `FileLanes.TransferJob.Conclude` | rustdesk_ffi/src/file_transfer.rs:215-239 | the first conclusion decides; a success is checked once more (the outcome over runs: `LaneOutcomes.JobReads`) |
| `FileLanes.TransferJob.Execute` | rustdesk_ffi/src/file_session.rs:181-225 | every path of an execution settles the job and keeps a connection only after Ok(true), or untouched when nothing was sent (`Executed`); what that means for runs is said by `LaneOutcomes` |
| `FileLanes.ExecutionIsItsSteps` | rustdesk_ffi/src/file_session.rs:181-225 | an uninterrupted run of a lane's interleaved steps has the effect of that execution on its job and connection, and on nothing else |
| `FileLanes.NoCommandLost` | rustdesk_ffi/src/file_session.rs:98-225 | under every interleaving of dispatch, cancel, idle timeout and map drop: every dispatched command is queued, executing or settled; they start one at a time in dispatch order; no cancelled job completes |
| `FileLanes.SettledJobIsFinal` | rustdesk_ffi/src/file_transfer.rs:215-239 | a job leaves the running state once |
| `LaneOutcomes.JobReads` | rustdesk_ffi/src/file_transfer.rs:215-239 | under every interleaving a job reads complete if and only if its run returned Ok while it was neither denied nor cancelled nor late, interrupted if and only if the first reason against it was a cancel, failed if and only if it was any other |
| `LaneOutcomes.ConnectionKeptExactly` | rustdesk_ffi/src/file_session.rs:128-225 | a live lane holds a connection if and only if a command opened it and since then every run on it returned Ok(true), every idle look found it alive and no cancel retired it; at rest the last run returned Ok(true) |
| `LaneOutcomes.IdleLaneEnds` | rustdesk_ffi/src/file_session.rs:148-172 | a lane idle for long whose queue is empty under the map lock ends: connection closed, map entry gone, nothing else touched |
| `FileLanes.DispatchReachesALane` | rustdesk_ffi/src/file_session.rs:98-126 | a dispatched command is queued on a lane that has not ended, or its job fails |
| `UploadProtocol.Upload.DrainControl` | rustdesk_ffi/src/connector.rs:1918-2048 | publishes nothing, answers each probe at once, stops at the first objection, deadline or failure, handles at most 256 frames and one MiB of a frame, succeeds only after a wait that found nothing buffered, and every error has its cause |
| `UploadProtocol.Upload.AwaitConfirmation` | rustdesk_ffi/src/connector.rs:1614-1733 | ends with the first message that decides, the deadline or the end of the stream; without error only after a message that allows data, answered if it was a digest; an existing target, a skip and a resume offset are refused |
| `UploadProtocol.Upload.AwaitWritten` | rustdesk_ffi/src/connector.rs:1796-1856 | waits past everything that does not answer; true only when the peer's own Done arrived, false without error only after a close or at the deadline |
| `UploadProtocol.Upload.ReadBlock` | rustdesk_ffi/src/file_transfer.rs:325-336 | one block of the source despite short reads; a shortened source only after a read of nothing |
| `UploadProtocol.Upload.PumpUpload` | rustdesk_ffi/src/file_transfer.rs:316-347 | all blocks of the source in order, at most 2^32 of them and only of an unchanged source, or an error after some first blocks |
| `UploadProtocol.Upload.UploadFile` | rustdesk_ffi/src/connector.rs:1544-1792 | against an arbitrary peer: exactly one receive request and one digest of the source, then the first deciding message, answered with no skip when it is a digest to overwrite, then the source's blocks and one Done, and besides these only echoes; no data after an objection, nothing after the end of the talk, each block right after a quiet drain and four passed job checks; Ok means all blocks, acknowledged only the peer's Done after ours, and every error has its cause |
| `UploadLog.AllBlocksNumbered` | rustdesk_ffi/src/connector.rs:1736-1768 | blocks are numbered 0, 1, 2, … with at most 65536 bytes, and some unless the source is empty |
| `UploadLog.AllBlocksCarrySource` | rustdesk_ffi/src/file_transfer.rs:316-347 | the blocks concatenate to the source |
| `UploadLog.FirstBlocksPayload` | rustdesk_ffi/src/file_transfer.rs:316-347 | the first n blocks carry exactly the first bytes they cover |
| `UploadLog.HeedingMeans` | rustdesk_ffi/src/connector.rs:1918-2048 | what the record of an upload excludes, by position: no data behind an objection, nothing behind the end of the talk, no block, request or Done but right after a quiet wait |
| `DownloadProtocol.Sink.Append` | rustdesk_ffi/src/file_transfer.rs:427-444 | all bytes go to the end of the stage file despite partial writes, or a beginning of them |
| `DownloadProtocol.Sink.WriteBlock` | rustdesk_ffi/src/file_transfer.rs:392-445 | a decoded block is appended whole within the announced size, else refused with its cause |
| `DownloadProtocol.Sink.Complete` | rustdesk_ffi/src/file_transfer.rs:446-463 | only a stage file of exactly the announced length passes, with its time set and on disk; each error has its cause |
| `DownloadProtocol.Download.Transfer` | rustdesk_ffi/src/connector.rs:2725-2857 | everything before the last arrival fits its place (no lost permission, garbage or error; one matching directory; only the digest of the selected file after it; blocks until the empty one) and was answered as it asked; the stage file holds the decoded blocks in order within the announced size; Ok only with the closing Done numbered 0 or 1 and the exact length; every failure is explained by the last message or a resource |
| `DownloadProtocol.Download.HandleControl` | rustdesk_ffi/src/connector.rs:2762-2846 | each message that is no block of this transfer continues, finishes or fails it, and a failure matches the message against what came before |
| `DownloadProtocol.Download.HandleBlock` | rustdesk_ffi/src/connector.rs:2810-2822 | a block before the metadata or after the end is refused, any other is written or refused by the sink |
| `DownloadProtocol.OrderlyMeans` | rustdesk_ffi/src/connector.rs:2762-2846 | what an orderly transfer has met, by position: each message is proper after those before it, and at most one directory of its id |
| `DownloadProtocol.DirectoryIsMetadata` | rustdesk_ffi/src/connector.rs:2770-2790 | the metadata is met exactly where a directory of this transfer arrives |
| `DownloadProtocol.BlocksReassemble` | rustdesk_ffi/src/file_transfer.rs:392-445 | blocks that carry the chunks of a file, compressed or not, decode to the file |
| `CursorCache.CursorState.ApplyData` | rustdesk_ffi/src/cursor_state.rs:108-174 | accepted exactly when in bounds and decodable, with the effect of `Store` |
| `CursorCache.CursorState.ApplyId` | rustdesk_ffi/src/cursor_state.rs:176-213 | has the result and effect of `Lookup` |
| `CursorCache.CursorState.TrimCache` | rustdesk_ffi/src/cursor_state.rs:288-307 | the trimming loop, with a popped selection put back, is `Trim` |
| `CursorCache.CursorState.RecordEviction` | rustdesk_ffi/src/cursor_state.rs:266-272 | the newest 64 evicted ids are remembered |
| `CursorCache.CacheAgreesWithMap` | rustdesk_ffi/src/cursor_state.rs:108-213 | over every run the cache agrees with the map of last accepted data: byte count, use order, selection last, within budget or one shape |
| `CursorCache.LookupReturnsLast` | rustdesk_ffi/src/cursor_state.rs:176-213 | over every run a hit returns the last accepted data field by field, decoded, and selects it; a miss changes nothing; the corrupt-entry path is unreachable |
| `CursorCache.EvictionIsMinimal` | rustdesk_ffi/src/cursor_state.rs:288-307 | accepted data stays and is selected; only a beginning of the use order goes, each because the rest exceeded the budget |
| `CursorCache.EvictionIsLru` | rustdesk_ffi/src/cursor_state.rs:288-307 | whatever is displaced was used before everything that stays |
| `CursorCache.AcceptedExactly` | rustdesk_ffi/src/cursor_state.rs:108-160 | data is accepted if and only if it is 1 to 384 pixels a side with the hot spot inside, 1 to 2^25 bytes long, and decodes |
| `CursorCache.SelectionIsSound` | rustdesk_ffi/src/cursor_state.rs:108-213 | over every run the shape on show is that of the last accepted data of its id, with the hot spot inside it |
| `CursorHistory.CachedIsLastStored` | rustdesk_ffi/src/cursor_state.rs:108-307 | over every run a shape is cached if and only if the last thing that happened to it was that it was stored |
| `CursorHistory.MissTellsEvictions` | rustdesk_ffi/src/cursor_state.rs:176-213 | a miss reports an eviction only if that was the last thing that happened to the shape, and always if fewer than 64 evictions followed it |
| `DisplayState.Machine.BuildCatalogue` | rustdesk_ffi/src/connector.rs:5994-6024 | the entries of a refresh: indices by position, sizes not negative, resolution lists learned before kept unless the peer sends one |
| `DisplayState.Machine.ChooseDisplay` | rustdesk_ffi/src/connector.rs:6028-6053 | desired, peer's, first online, first: in this order |
| `DisplayState.Machine.PopulateDisplayState` | rustdesk_ffi/src/connector.rs:5981-6091 | the refresh as a whole and whether anything changed |
| `DisplayState.Machine.ApplyPeerInfo` | rustdesk_ffi/src/connector.rs:6093-6117 | a refresh with its epoch |
| `DisplayState.Machine.SyncActiveDisplay` | rustdesk_ffi/src/connector.rs:6128-6152 | the active geometry becomes the entry's, or nothing happens without one |
| `DisplayState.Machine.ApplySwitchDisplay` | rustdesk_ffi/src/connector.rs:6154-6235 | a described switch as a whole |
| `DisplayState.Machine.ApplyFollowCurrent` | rustdesk_ffi/src/connector.rs:6237-6292 | a followed switch as a whole, with and without a catalogue |
| `DisplayState.Machine.RequestSwitch` | rustdesk_ffi/src/lib.rs:3500-3520 | a request sets target and a fresh pending generation together |
| `DisplayRuns.RunKeepsInv` | rustdesk_ffi/src/connector.rs:5981-6292 | over every run: distinct indices below 16, at most 16 entries, sane sizes and lists, a pending switch has a target and the latest generation; the mirror of the active geometry, once it holds, stays |
| `DisplayRuns.StepKeepsMirror` | rustdesk_ffi/src/connector.rs:6128-6152 | every refresh and every switch in force establishes the mirror |
| `DisplayRuns.StartIsGood` | rustdesk_ffi/src/lib.rs:2428-2450 | a session starts sound; its geometry is that of a listed display if and only if no login came, it listed none, or the one shown is wider and higher than one pixel or has exactly the rounded fallback as its size and original size |
| `DisplayRuns.LoginShows` | rustdesk_ffi/src/connector.rs:6028-6079 | which display that is: the peer's current one if listed and online, else the first online, else the first |
| `DisplayRuns.UnmirroredLogin` | rustdesk_ffi/src/lib.rs:2428-2450 | a login that starts unmirrored |
| `DisplayRuns.StepTicks` | rustdesk_ffi/src/connector.rs:6093-6117 | a new active geometry always comes with a new epoch |
| `DisplayRuns.TicksExactly` | rustdesk_ffi/src/connector.rs:6093-6235 | the epoch moves if and only if another geometry becomes active, or a refresh changes the catalogue or is the first |
| `DisplayRuns.GenerationCounts` | rustdesk_ffi/src/lib.rs:3500-3520 | over every run the generation counts the requests in range, on the circle 1 to 2^64 - 1 |
| `DisplayRuns.SameEpochSameGeometry` | rustdesk_ffi/src/connector.rs:6093-6292 | equal epochs less than a full wrap apart mean the same active geometry |
| `DisplayRuns.EpochRepeatsExactly` | rustdesk_ffi/src/connector.rs:6093-6292 | equal epochs can hide a change of geometry if and only if the number of ticks between them is a positive multiple of 2^32 - 1 |
| `DisplayRuns.StaleAcknowledgementIgnored` | rustdesk_ffi/src/connector.rs:6166-6174 | an acknowledgement of another display than the wanted one changes nothing |
| `DisplayRuns.PendingEndsExactly` | rustdesk_ffi/src/connector.rs:6154-6292 | a pending switch ends if and only if an acknowledgement is in force, which is then of the wanted display |
| `DisplayRuns.ConfirmedIsAnswered` | rustdesk_ffi/src/connector.rs:6154-6292 | over every run a confirmed generation was handed out to a request and confirmed by a later acknowledgement of that display with no request in between |
| `DisplayRuns.SwitchLasts` | rustdesk_ffi/src/connector.rs:6028-6053 | only a request or a refresh without the display moves the session away from a reached target |
| `DisplayRuns.RefreshReleasesExactly` | rustdesk_ffi/src/connector.rs:6028-6041 | a confirmed target survives a refresh if and only if the refresh lists it online |
| `DisplayRuns.PendingTargetStays` | rustdesk_ffi/src/connector.rs:6034-6041 | while a switch is pending its target stays wanted, whatever the peer lists |
| `DisplayRuns.SwitchTakesEffect` | rustdesk_ffi/src/connector.rs:6178-6222 | a switch in force shows the display it names, with the position, sizes, original size and usable resolutions it gives |
| `DisplayRuns.SwitchSparesOthers` | rustdesk_ffi/src/connector.rs:6178-6222 | and leaves every other entry alone |
| `DisplayRuns.SwitchKeepsTheRest` | rustdesk_ffi/src/connector.rs:6178-6222 | what the message leaves out stays: name, scale, sizes that are not positive, original size, resolutions |
| `DisplayRuns.SwitchAdds` | rustdesk_ffi/src/connector.rs:6178-6222 | a display that was not listed is added behind the others, nameless, at the scale on show if it is current |
| `DisplayRuns.RefreshTakesEffect` | rustdesk_ffi/src/connector.rs:5958-6079 | a refresh shows one of the displays it lists, with the sizes it gives |
| `DisplayRuns.RefreshKeepsLearned` | rustdesk_ffi/src/connector.rs:6003-6024 | a refresh loses no resolution list learned for a display it still lists |
| `DisplayRuns.RefreshBringsResolutions` | rustdesk_ffi/src/connector.rs:6003-6024 | a refresh gives the usable list it brings to the display the peer calls current |
| `DisplayRuns.CollectsFirstUsable` | rustdesk_ffi/src/connector.rs:5941-5956 | such a list is the first 32 resolutions with positive sides, in their order |
| `DisplayRuns.RefreshDescribes` | rustdesk_ffi/src/connector.rs:5958-5979 | every entry of a refreshed catalogue says what the peer says of the display at its position |
| `DisplayRuns.RefreshChooses` | rustdesk_ffi/src/connector.rs:6028-6053 | which display a refresh shows: the wanted one if online, else the peer's, else the first online, else the first |
| `RemotePaths.JoinRemotePath` | rustdesk_ffi/src/connector.rs:2392-2401 | the appending loop builds the trimmed base, a separator, and the name with its slashes turned |
| `RemotePaths.SafeNameIsPlain` | rustdesk_ffi/src/connector.rs:2375-2389 | an accepted name is a path of plain components, read by the peer as exactly these |
| `RemotePaths.SafeNameExactly` | rustdesk_ffi/src/connector.rs:2375-2389 | a name is accepted if and only if the peer reads it as plain components throughout, within 4096 bytes, with no NUL and no colon in second place |
| `RemotePaths.JoinExtends` | rustdesk_ffi/src/connector.rs:2392-2401 | joining appends the name's components to the base's, for a base in the peer's own style |
| `RemotePaths.JoinExtendsExactly` | rustdesk_ffi/src/connector.rs:2392-2401 | on a peer other than Windows it does so if and only if the base does not look like Windows |
| `RemotePaths.RemovableIsPlain` | rustdesk_ffi/src/connector.rs:2405-2422 | a removable path names something below a root and nothing by dots |
| `RemotePaths.RemovableExactly` | rustdesk_ffi/src/connector.rs:2405-2422 | a path may be removed if and only if it lies below a root, is no network path and has no dots among its components |
| `RemotePaths.RemovalStaysInside` | rustdesk_ffi/src/connector.rs:2405-2479 | below a removable base any accepted name leads to base components then name components, none of them "." or ".." |
| `RemotePaths.ForeignBaseEscapes` | rustdesk_ffi/src/connector.rs:2392-2422 | a base accepted for removal below which a name is lost on a Unix peer |
| `RemotePaths.SplitUndoesJoin` | rustdesk_ffi/src/connector.rs:4815-4842 | split after join returns the base in canonical form and the name, roots included |
| `RemotePaths.SplitExactly` | rustdesk_ffi/src/connector.rs:4815-4842 | every path: the name is what follows the last separator, the parent has the other components, and is "." without a separator |
| `RemotePaths.CanonicalKeepsComponents` | rustdesk_ffi/src/connector.rs:4815-4842 | the canonical form names the same folder |
| `RemotePaths.ParentAndName` | rustdesk_ffi/src/connector.rs:2427-2448 | the parent and name of a removable path are its components again |
| `RemotePaths.CheckNames` | rustdesk_ffi/src/connector.rs:2340-2354 | a recursive listing is accepted only as a whole |
| `RemotePaths.RemoveRemotePath` | rustdesk_ffi/src/connector.rs:2427-2479 | anything is sent only if the first entry of the parent's listing with the target's name is a real folder for a folder, else a file or a link; any other kind is refused with nothing sent; what is sent is a beginning of the plan, each command after all before it were accepted; a completed removal sent one RemoveFile per listed name in order and then RemoveDir, or just RemoveFile(path); each refusal has its cause |
| `RemotePaths.PlanStaysInside` | rustdesk_ffi/src/connector.rs:2463-2479 | every command names the folder or something below it, and nothing by dots |
| `GitTree.InsertAdds` | scripts/verify_moonlight_vendor.py:127-138 | a successful insertion changes exactly the one path |
| `GitTree.InsertExactlyWhenFree` | scripts/verify_moonlight_vendor.py:127-138 | an insertion is refused if and only if a path in the tree collides with it |
| `GitTree.BuildHolds` | scripts/verify_moonlight_vendor.py:121-155 | the build succeeds if and only if no two paths collide, and then the tree holds exactly the entries |
| `GitTree.SameEntriesSameLeaves` | scripts/verify_moonlight_vendor.py:121-155 | the same entries in any order lead to the same leaves |
| `GitObjects.FramedInjective` | scripts/verify_moonlight_vendor.py:104-106 | the hashed framing determines kind and payload |
| `GitFormat.ObjectsAreGits` | scripts/verify_moonlight_vendor.py:104-106 | an object is hashed as its kind, a space, its length in decimal, a NUL and its payload |
| `GitFormat.DecimalReadsBack` | scripts/verify_moonlight_vendor.py:104-106 | that decimal number stands for the length, without a leading zero |
| `GitFormat.BeforeExactly` | scripts/verify_moonlight_vendor.py:167 | the order of entries is the lexicographic one of bytes |
| `GitFormat.DirectoriesSortWithSlash` | scripts/verify_moonlight_vendor.py:167 | a file "a.b" comes before a directory "a" |
| `GitObjects.SortLinesSorts` | scripts/verify_moonlight_vendor.py:167 | entries are sorted strictly by their key, none lost |
| `GitObjects.SerializeInjective` | scripts/verify_moonlight_vendor.py:168-171 | a tree object whose names have at most four bytes behind a NUL reads back as one list of lines only |
| `GitObjects.TreeIsCanonical` | scripts/verify_moonlight_vendor.py:157-171 | for names without a slash the tree object depends on the leaves only, not on insertion order |
| `GitObjects.TreeIsInjective` | scripts/verify_moonlight_vendor.py:157-173 | without a collision among what was hashed, trees with the same id have the same leaves, for names with at most four bytes behind a NUL |
| `VendorTree.Reconstruct` | scripts/verify_moonlight_vendor.py:109-173 | succeeds if and only if the component is accepted, with the id of a tree that holds exactly its files and gitlinks; else the error is that of the first fault in the order of the checks |
| `VendorTree.AcceptedExactly` | scripts/verify_moonlight_vendor.py:109-155 | accepted if and only if all executables are known, no file is a symbolic link, every gitlink is in place, and no path is another one or leads through it |
| `VendorTree.TreeHoldsSources` | scripts/verify_moonlight_vendor.py:121-155 | what the tree leads to: each file under its path, executable if and only if the lock says so, with the id of its bytes; each gitlink with its revision; nothing else |
| `VendorTree.AcceptedUpToOrder` | scripts/verify_moonlight_vendor.py:109-155 | whether a component is accepted does not depend on the order of its lists |
| `VendorTree.RootIdIgnoresOrder` | scripts/verify_moonlight_vendor.py:109-173 | neither does the root id, whatever the gitlink names |
| `VendorTree.SameRootSameSources` | scripts/verify_moonlight_vendor.py:109-173 | accepted components with the same root id have the same paths, modes, file bytes and gitlinks, if no gitlink name has more than four bytes behind a NUL |
| `LinkNames.TailsExact` | scripts/verify_moonlight_vendor.py:109-173 | that bound is exact: components whose gitlink names have at most k bytes behind a NUL are identified by their root id if and only if k is at most 4 |
| `LinkNames.AmbiguousExactly` | scripts/verify_moonlight_vendor.py:139-171 | the tree object of a single gitlink is also that of other gitlinks if and only if its name splits into a name, a NUL, twenty bytes, the gitlink mode and a later name |
| `LinkNames.SplitNameConfuses` | scripts/verify_moonlight_vendor.py:139-171 | every gitlink whose name splits has accepted other sources with the same root id and no collision |
| `LinkNames.FiveConfuse` | scripts/verify_moonlight_vendor.py:109-173 | two accepted components with five bytes behind a NUL, the same root id, no collision, and different sources |

## Left out

- Diagnostics: counters, snapshots, log lines and detail strings of the inbox, the channel and the streams.
- Lock poisoning and the exact wording of error messages; errors are modelled by their kind.
- Wall-clock time: a deadline is a flag on an event, a number of polls or a clock that ticks; thread scheduling is the order of steps.
- Permission masks are sets of bits. The two masks and the shutdown flag are updated together with the state inside one step; only in the phone fence are the gate, the epoch and the sweep separate steps. The hook of a denial into the file clipboard is not modelled.
- The plain channel without encryption: its reader is `FrameReaders.FrameBuffer.ReadFrameWithPump`, its sends carry no nonce.
- Ciphers, SHA-1, zstd and protobuf: an ideal cipher, a hash and a decoder as parameters, and messages as datatypes.
- SecureChannel.NoReplay: assumes at most 2^64 - 4096 written frames, because with one more the property is false (see above).
- GitObjects.TreeIsInjective: assumes the hash injective on the objects hashed for the two trees, because no function into 20 bytes is injective on all inputs, and at most four bytes behind a NUL in a name, because with five the property is false (see above).
- VendorTree.Reconstruct: the nested dictionaries are values (lists of items in insertion order) rather than updated in place, so aliasing of sub-dictionaries is not modelled; two components of a lock, file discovery and the manifest digest are not part of it.
- Publications.Table.ReserveId: the table's receipts are values; that a token and an observation share one receipt is modelled by the interleaved steps of `Publications.Apply` instead.
- FileLanes.NoCommandLost: the lanes of one kind; the two kinds, control and data, share only the map lock and the generation counter.
- UploadProtocol.Upload.DrainControl: how many bytes are buffered is an event (`Flooded`); the window argument is always zero and the call after completion is replaced by `AwaitWritten`, as in the code's callers.
- RemotePaths.RemoveRemotePath: the two listings are given or missing; how a listing or a round trip waits, answers probes and times out is summed up in its answer, and message ids are not modelled.
- DisplayState.Machine.PopulateDisplayState: adopting platform additions, the peer's version and privacy fields are not modelled, and a display's scale arrives already rounded to thousandths.
- The legacy upload that sends after a timeout without confirmation (`upload_file_once`), renaming, folder creation and directory listing.
- Sockets, TCP and KCP racing, rendezvous, relay and NAT probing, IPC: what they promise depends on the network and the operating system, which appear here only as scripts of outcomes.
- Video, audio and clipboard contents, which pass through the session unread, and keyboard tables, quality and frame-rate selection and licence tooling, which keep no state that the machines above depend on.
