# Droidloom graphics path: a verified model

Droidloom shows Android tasks as native host windows. Two peers share the work. Android
Composer runs inside the container; the host side is called Denial. They exchange records
over ordered sequenced-packet sockets and must always agree on who owns each frame, buffer,
configure generation and timeline point. This project models the state machines on both
sides, their composition over the socket, and the components around them, and proves what
holds in every run.

The main results, in the order of the files:

- **The two-party protocol** (`Protocol*.dfy`, over `HostTask`, `Endpoint`, `Transport`,
  `Phone`). A system is Android's task, the host's table and both record logs with a cursor
  each. Steps of either side interleave freely; every send, fence import, export and signal
  may fail. Android's event pump and its removal of the task run on two threads, each with
  its own steps. In every run: frames are conserved, the frames lost to a destroy are named
  exactly, and so is when the host refuses a record and when the pump stops.
- **Scenes** (`Scene`, `Staging`): the one-pass validation equals a declarative verdict that
  ignores the order of layers; busy scenes; ticket identities over whole streams; chunk
  decoding; staging; configuration snapshots.
- **Command queue** (`Commands`): the queue equals a specification on its history.
- **Composer** (`Composer`, `Batches`): presents need a fresh validation; displays do not
  interfere within a batch.
- **Reservations and identities** (`Bridge`, `Registry`, `Coordinator`, `Lives`): the maps of
  the coordinator refine one small automaton per window.
- **Vertical sync** (`Vsync`): no drift on either side of the one change of phase, and the
  exact limit at the end of the 64-bit range.
- **Codecs** (`Wire`, `Packet`, `AndroidCodec`, `DenialCodec`, `ControlCodec`, `Cursors`,
  `Text`, `CodecBounds`): round trips, canonical decoding, wrong direction, and exactly what
  can be sent.

State that the source updates in place is modelled twice: a value type with one function per
transition, on which the properties are proved, and a class with the source's fields whose
methods are proved to compute those functions. Kernel and socket answers are parameters.
Maps stand for the source's ordered maps; where their order matters (the lowest idle target,
the oldest ready command, the changed layers, the due displays) it is part of the contract
(`Ordered`).

`dafny verify dfyconfig.toml` checks the whole project.

## Where a property fails, and exactly when

- *A frame under the current configure is never refused as unacknowledged.* False: Android
  records an acknowledgement before it is sent, so a failed send lets the next frame through
  (`ProtocolWitness.LostAcknowledgementIsFatal`). `ProtocolRuns.PresentVerdict` gives the
  exact condition: it is refused so if and only if no acknowledgement of that serial was
  handed to the socket, and then one was lost.
- *Acknowledgements are always accepted.* False after a destroy
  (`ProtocolWitness.LateAcknowledgementIsFatal`): an acknowledgement is refused if and only if
  the task was destroyed and the host has already dropped it
  (`ProtocolRuns.HostRefusesExactly`).
- *Every frame comes back.* False after a destroy: the host consumes the releases of a
  retiring task, while Android's window removal waits for its frames to drain. The comment
  beside the host code says that Android forgets the task at once; the Android code does not,
  and the model follows the code (`ProtocolWitness.SwallowedReleaseIsReachable`). A frame is
  lost if and only if the host holds it when it takes the destroy
  (`ProtocolEnds.FramesLostExactly`), and the window can be removed if and only if there was
  no such frame (`ProtocolEnds.RemovableExactly`).
- *Android's event pump survives every task record of the host.* False once a removal has
  begun, because the removal goes on between the pump's steps. `ProtocolRuns.PumpStopsExactly`
  gives the condition for each step, on the state before it: the channel is gone and the task
  not yet retired when the pump looks it up; the channel, or the window the record needs, is
  gone when the record is applied; the task is retired when the pump reports its configure;
  the display is gone, or was disconnected since the pump asked for it, when it is announced;
  or a send or a callback failed. Every case but the last needs a removal, and releases and
  targets never stop the pump. Each case is reachable (`ProtocolWitness.LateNoticeIsFatal`,
  `LateRecordIsFatal`, `LateConfigureIsFatal`, `LateRefreshIsFatal`).
- *A submission ends the reservation it used.* False without a window: the submission returns
  before it gives the target back, although the connection has already forgotten it
  (`Bridge.StrandedIsReachable`). The reservation ends if and only if the window exists
  (`Bridge.SubmitReturns`), and over whole runs the reserved targets that nobody holds are
  exactly those presented after the window went (`Bridge.UnheldExactly`).
- *The next tick is the first grid point after now.* Holds if and only if that point fits 64
  bits (`Vsync.NextVsyncIsExact`, `Vsync.SaturationBreaksTheClock`).

## Assumptions about the host

The host's decisions are free except for what its presenter does itself: a repeated configure
serial keeps its dimensions, a new serial is later (in the wrapped order) than every serial
still outstanding, and a buffer identity is never lent twice (`Protocol.Allowed`).
`ProtocolRuns.CounterAdvances` derives the second from a counter with fewer than 2^31
outstanding generations, wrapping or not; the presenter's counter stops at the end of 32 bits,
which is the case without a wrap. A run ends for the protocol when the host closes the
connection. Android's event pump stops at its first error and then ends its process; a run
shows what the other threads can do until that happens.

## Model

| member | source | states |
|---|---|---|
| `Serial.PrecedesIsRfc1982` | graphics/droidloom-denial-protocol/src/lib.rs:1192-1194 | The wrapping comparison is the order of section 3.2 of RFC 1982 for 32-bit serials, and neither of two serials 2^31 apart precedes the other. |
| `Serial.PrecedesIsAsymmetric` | graphics/droidloom-denial-protocol/src/lib.rs:1192-1194 | Two serials never supersede each other. |
| `Serial.WireOrder` | graphics/droidloom-denial-protocol/src/lib.rs:1192-1194 | On the wire a generation precedes another exactly when their unbounded distance modulo 2^32 lies strictly between 0 and 2^31. |
| `Serial.WindowOrder` | graphics/droidloom-denial-protocol/src/lib.rs:1192-1194 | While fewer than 2^31 generations are outstanding, wrapped serials compare like the unbounded generations, across any number of wraps. |
| `Serial.WindowIsTight` | graphics/droidloom-denial-protocol/src/lib.rs:1192-1194 | At a distance of exactly 2^31 a superseded serial is no longer recognised; at one less it still is. |
| `ProtocolRuns.RunHolds` | graphics/droidloom-denial-endpoint/src/lib.rs:436-540 | Every state of every run of the two peers, while the connection is open, satisfies the whole protocol invariant (structure, lifecycle, serials, acknowledgements, points, frame tokens, metadata, sizes) and the target-pool invariant, for all interleavings and all failures of sends and fences. |
| `ProtocolRuns.PresentVerdict` | graphics/droidloom-denial-protocol/src/lib.rs:959-1095 | In every run the host's verdict on the frame it takes next is exact: under the current serial it is UnacknowledgedConfigure if and only if no acknowledgement of that serial was handed to the socket (which takes a failed send), otherwise it can only be a buffer the host itself revoked or a format it withdrew, or acceptance; under an older serial the discard path always succeeds. |
| `ProtocolFormats.HostOffersWhatItSaid` | graphics/droidloom-denial-endpoint/src/lib.rs:575-591 | In every run, while the host knows the task, the formats it judges frames by are exactly those of the last feedback it sent, and none before the first. |
| `ProtocolFormats.AndroidUsesWhatItHeard` | graphics/droidloom-composer/src/denial.rs:390-402 | In every run the formats Android submits by are exactly those of the last feedback it applied. |
| `ProtocolFormats.UnsupportedFormatNeedsNews` | graphics/droidloom-denial-protocol/src/lib.rs:959-1001 | A frame is refused for its format only if a feedback left the host after the last one Android had applied when it submitted the frame. |
| `ProtocolFormats.FeedbackIsNumbered` | graphics/droidloom-denial-protocol/src/lib.rs:828-856 | In every run each feedback the host sends carries a generation above all earlier ones. |
| `ProtocolWire.RecordsTravel` | graphics/droidloom-denial-protocol/src/lib.rs:1241-1416 | In every run every record Android sends after creating the task encodes and decodes to the same message. |
| `ProtocolRuns.HostRefusesExactly` | graphics/droidloom-denial-endpoint/src/lib.rs:1049-1236 | In every run the host closes the connection over a record in exactly the listed cases; in particular never over a content state, a target request, a destroy, or a frame's points, identity, size, damage or owned buffer, and over an acknowledgement if and only if the task was destroyed and is no longer in the host's table. |
| `ProtocolRuns.FramesAreConserved` | graphics/droidloom-composer/src/denial.rs:322-362 | In every run the frames Android waits for are the disjoint union of the frames in the socket, held by the host, on the way back, and consumed by the host after destruction; each appears once, Android's two tables name the same frames, and before destruction none is consumed. |
| `ProtocolRuns.PumpStopsExactly` | graphics/droidloom-composer-service/src/main.rs:300-342 | In every run and for each step of the pump over feedback, target, configure, release, presentation and notice records: it stops if and only if the step's listed condition holds in the state before it; without a failed send or callback that needs a removal in progress, and it never happens over a release, a lent or a revoked target. |
| `ProtocolRuns.DirectTasksAreNotAnnounced` | graphics/droidloom-composer-service/src/main.rs:346-383 | A direct task is announced as a display only once it is retired, and the announcement then always stops the pump. |
| `ProtocolPump.StepKeepsStaged` | graphics/droidloom-composer-service/src/control.rs:840-897 | Every step keeps the removal in order (begun, destroy requested, window gone, channel forgotten, retired) and what the pump relies on at each stage: the serial to acknowledge is the window's latest, a display is connected only with its window, configures have an extent and a refresh rate, and presentations come after a configure. |
| `ProtocolRuns.SwallowedIsPinned` | graphics/droidloom-denial-endpoint/src/lib.rs:825-831 | A release the host consumed for a retiring task never reaches Android: the frame stays pending and in flight there in every later state. |
| `ProtocolEnds.FramesLostExactly` | graphics/droidloom-denial-endpoint/src/lib.rs:800-833 | In every state after the host took the destroy, Android waits for exactly the frames the host held at that moment and those on their way back, and no frame is both: a frame is lost if and only if the host held it then. |
| `ProtocolEnds.NothingLostBefore` | graphics/droidloom-denial-endpoint/src/lib.rs:1099-1106 | Until the host takes the destroy, every frame Android waits for is queued, held by the host or on its way back. |
| `ProtocolEnds.RemovableExactly` | graphics/droidloom-composer/src/lib.rs:487-507 | Once every record of the host has been heard, the window of a destroyed task can be removed if and only if the host held none of its frames when it took the destroy. |
| `ProtocolRuns.CounterAdvances` | graphics/droidloom-wayland/src/main.rs:795-799 | The assumption on new configure serials follows from a counter with fewer than 2^31 generations outstanding, across any number of wraps; the cited counter fails at the end of 32 bits and is the case without a wrap. |
| `ProtocolHears.OwedReleaseApplies` | graphics/droidloom-composer-aidl/src/denial.rs:312-370 | A release whose frame, buffer and point Android waits for is applied, retires exactly that frame and keeps the Android side valid. |
| `ProtocolPool.RecordsApply` | graphics/droidloom-composer-aidl/src/denial.rs:312-460 | In every state of the invariant the next record of the host fails to apply to the task's channel if and only if it updates a window that is gone. |
| `ProtocolPool.PoolKept` | graphics/droidloom-denial-endpoint/src/lib.rs:601-652 | Every step before a removal keeps the two views of the lent targets consistent: what the host has registered is usable on Android or about to be, and is revoked at most once; and the window goes only after a removal began. |
| `ProtocolWitness.LostAcknowledgementIsFatal` | graphics/droidloom-composer/src/denial.rs:285-305 | A reachable run in which the acknowledgement right after a configure failed to leave, Android nevertheless counts it, and the next frame is refused as unacknowledged. |
| `ProtocolWitness.LateAcknowledgementIsFatal` | graphics/droidloom-composer/src/denial.rs:200-216 | A reachable run in which the destroy is sent between applying a configure and acknowledging it, and the acknowledgement names an object the host has dropped. |
| `ProtocolWitness.SwallowedReleaseIsReachable` | graphics/droidloom-denial-endpoint/src/lib.rs:800-833 | A reachable run, with both queues drained, in which the host has forgotten the task and Android still waits for its frame. |
| `ProtocolWitness.LateRecordIsFatal` | graphics/droidloom-composer-service/src/main.rs:321-331 | A reachable run in which the window goes after the pump found the record's channel and before it applies the record. |
| `ProtocolWitness.LateNoticeIsFatal` | graphics/droidloom-composer-service/src/main.rs:316-320 | A reachable run in which a record that needs no window finds its channel forgotten and its task not yet retired. |
| `ProtocolWitness.LateConfigureIsFatal` | graphics/droidloom-composer-service/src/control.rs:99-118 | Reachable runs in which a configure was applied and acknowledged under its window and the task is retired before it is reported, or before it is dispatched. |
| `ProtocolWitness.LateRefreshIsFatal` | graphics/droidloom-composer-service/src/main.rs:368-380 | A reachable run in which the display of a task that is not direct is disconnected between the pump's question and its refresh, while the window is still there. |
| `HostTask.Task.PresentedKeepsValid` | graphics/droidloom-denial-protocol/src/lib.rs:1019-1037 | Accepting a frame keeps ownership exact: busy buffers are the image of the injective in-flight map, contained in the registered buffers, with pairwise different spent points. |
| `HostTask.Task.ReleasedKeepsValid` | graphics/droidloom-denial-protocol/src/lib.rs:1102-1128 | Releasing a frame keeps ownership exact. |
| `HostTask.Task.PresentThenRelease` | graphics/droidloom-denial-protocol/src/lib.rs:1135-1152 | Releasing or cancelling an accepted frame undoes everything except the spent points, and can never be refused. |
| `HostTask.Task.LendRollback` | graphics/droidloom-denial-protocol/src/lib.rs:913-947 | Registering a target and withdrawing it is the identity and the withdrawal cannot be refused. |
| `HostTask.Task.RevokeRollback` | graphics/droidloom-denial-protocol/src/lib.rs:913-947 | Withdrawing a target and registering it again is the identity and the registration cannot be refused. |
| `HostTask.Task.AcceptOrDiscardExclusive` | graphics/droidloom-denial-protocol/src/lib.rs:959-1095 | No frame qualifies both for acceptance and for discard, and whatever qualifies for discard is refused as stale by acceptance. |
| `HostTask.Task.AcceptsExactly` | graphics/droidloom-denial-protocol/src/lib.rs:959-1037 | A frame is accepted if and only if it is for this bound task under its current, acknowledged configure, its lent buffer is free, in an offered format and of exactly the configured width and height, its identity is free, its points are later than all earlier ones, and at most 256 non-empty rectangles damage no pixel outside. |
| `HostTask.Task.DiscardsExactly` | graphics/droidloom-denial-protocol/src/lib.rs:1057-1095 | A frame is consumed unseen if and only if its configure is superseded, its buffer and identity are free and its points are later. |
| `HostTask.Task.OffersExactly` | graphics/droidloom-denial-protocol/src/lib.rs:828-856 | Feedback is taken if and only if it is newer, names 1 to 256 formats and never the reserved modifier. |
| `HostTask.Task.LendsExactly` | graphics/droidloom-denial-protocol/src/lib.rs:913-950 | A target is lent if and only if it is importable, its identity is free and fewer than 256 are lent; it is taken back if and only if it is lent and no frame holds it. |
| `HostTask.TaskPresentationState.New` | graphics/droidloom-denial-protocol/src/lib.rs:787-801 | Object zero is refused; otherwise a fresh valid state. |
| `HostTask.TaskPresentationState.BindTimelines` | graphics/droidloom-denial-protocol/src/lib.rs:814-822 | Binds once, refuses a second time without effect, and keeps ownership exact. |
| `HostTask.TaskPresentationState.ReplaceFeedback` | graphics/droidloom-denial-protocol/src/lib.rs:828-856 | Refuses an older generation, an empty or oversized list and the reserved modifier, otherwise replaces the set; keeps ownership exact. |
| `HostTask.TaskPresentationState.ApplyConfigure` | graphics/droidloom-denial-protocol/src/lib.rs:863-881 | A repeated serial keeps its acknowledgement, a new one clears it; bad bounds change nothing; ownership stays exact. |
| `HostTask.TaskPresentationState.AcknowledgeConfigure` | graphics/droidloom-denial-protocol/src/lib.rs:888-906 | The current serial is acknowledged, a superseded one is accepted without effect, anything else is refused without effect; ownership stays exact. |
| `HostTask.TaskPresentationState.RegisterBuffer` | graphics/droidloom-denial-protocol/src/lib.rs:913-931 | Adds the buffer or reports the first reason not to, within 256 buffers. |
| `HostTask.TaskPresentationState.UnregisterBuffer` | graphics/droidloom-denial-protocol/src/lib.rs:937-950 | Refuses a busy or unknown buffer, otherwise removes exactly it. |
| `HostTask.TaskPresentationState.Present` | graphics/droidloom-denial-protocol/src/lib.rs:959-1037 | Reports the first of twelve reasons and changes nothing, or takes ownership of frame, buffer and points. |
| `HostTask.TaskPresentationState.DamageFits` | graphics/droidloom-denial-protocol/src/lib.rs:1003-1017 | True exactly for at most 256 non-empty rectangles that all lie inside the configured size. |
| `HostTask.TaskPresentationState.DiscardSupersededPresent` | graphics/droidloom-denial-protocol/src/lib.rs:1057-1095 | Consumes the points of a superseded frame without owning its buffer, or changes nothing. |
| `HostTask.TaskPresentationState.Release` | graphics/droidloom-denial-protocol/src/lib.rs:1102-1128 | Releases exactly the named tuple or reports an unknown frame or a mismatch without effect. |
| `Endpoint.EveryRunIsValid` | graphics/droidloom-denial-endpoint/src/lib.rs:436-1236 | Over every sequence of actions, including failed sends and fence exports: pending frames agree with the state machine's tuple for tuple, timelines are held exactly when bound, a retiring object exists only while frames are in flight, identities are distinct and the table is bounded. |
| `Endpoint.DestroyedStaysExactly` | graphics/droidloom-denial-endpoint/src/lib.rs:800-833 | Over every run a destroyed object stays in the table exactly as long as it had a frame at its destroy and no later action released the only frame it had left. |
| `Endpoint.RecordsSayWhatWasDone` | graphics/droidloom-denial-endpoint/src/lib.rs:575-966 | Whatever the endpoint does for a live task, the record it sends carries exactly that action's content, and nothing is sent for the rest. |
| `Endpoint.RetiringIsSilent` | graphics/droidloom-denial-endpoint/src/lib.rs:800-833 | No release and no timing of a retiring task leaves. |
| `Endpoint.FailedSends` | graphics/droidloom-denial-endpoint/src/lib.rs:575-685 | Feedback, configures, releases and timing stand whether or not their record left; a target that could not be lent or revoked is as if nothing had been tried. |
| `Endpoint.BindingIsFinal` | graphics/droidloom-denial-endpoint/src/lib.rs:1083-1097 | Once bound, neither the object nor the task can be bound again. |
| `Endpoint.TimelinesBindOnce` | graphics/droidloom-denial-endpoint/src/lib.rs:1108-1122 | Timelines bind if and only if they were imported and none are bound. |
| `Endpoint.TimingAfterRelease` | graphics/droidloom-denial-endpoint/src/lib.rs:908-966 | After its release a frame's timing can be reported if and only if it was tracked before and not forgotten, and only once. |
| `Endpoint.ApplyKeepsValid` | graphics/droidloom-denial-endpoint/src/lib.rs:575-1236 | Each single action keeps that invariant, on success and on every failure path. |
| `Endpoint.PresentKeepsValid` | graphics/droidloom-denial-endpoint/src/lib.rs:1156-1236 | A frame that was not accepted leaves ownership and pending frames untouched, whichever of the fence, signal and send steps failed. |
| `Endpoint.FinishKeepsValid` | graphics/droidloom-denial-endpoint/src/lib.rs:800-833 | The stored tuple of a pending frame can always be released. |
| `Endpoint.OtherObjectsUntouched` | graphics/droidloom-denial-endpoint/src/lib.rs:1238-1261 | An action never changes another task object. |
| `Endpoint.DenialEndpoint.CreateTask` | graphics/droidloom-denial-endpoint/src/lib.rs:1049-1081 | Refuses a full table, a duplicate object or display and object zero; otherwise adds a fresh entry. |
| `Endpoint.DenialEndpoint.BindTaskIdentity` | graphics/droidloom-denial-endpoint/src/lib.rs:1083-1097 | Binds one task to one object, once, and never one task to two objects. |
| `Endpoint.DenialEndpoint.DestroyTask` | graphics/droidloom-denial-endpoint/src/lib.rs:1099-1106 | Removes an idle object at once and keeps one with frames in flight as retiring. |
| `Endpoint.DenialEndpoint.BindTaskTimelines` | graphics/droidloom-denial-endpoint/src/lib.rs:1108-1122 | Timelines and the state machine's flag change together or not at all. |
| `Endpoint.DenialEndpoint.AcknowledgeConfigure` | graphics/droidloom-denial-endpoint/src/lib.rs:436-540 | Acknowledges on the addressed object only, or reports why not. |
| `Endpoint.DenialEndpoint.SendConfigureRecord` | graphics/droidloom-denial-endpoint/src/lib.rs:655-685 | The new configure stands even when its record cannot be sent. |
| `Endpoint.DenialEndpoint.RegisterRenderTarget` | graphics/droidloom-denial-endpoint/src/lib.rs:601-630 | A target whose record cannot be sent is withdrawn again: the table is unchanged. |
| `Endpoint.DenialEndpoint.UnregisterRenderTarget` | graphics/droidloom-denial-endpoint/src/lib.rs:632-653 | A revocation whose record cannot be sent is undone: the table is unchanged. |
| `Endpoint.DenialEndpoint.PresentFrame` | graphics/droidloom-denial-endpoint/src/lib.rs:1156-1236 | Accepts, discards with an immediate release, or fails; a failed fence export rolls ownership back. |
| `Endpoint.DenialEndpoint.FinishReleaseOf` | graphics/droidloom-denial-endpoint/src/lib.rs:800-833 | Releases exactly one pending frame, sends it unless the task is retiring, and drops the retiring object with its last frame. |
| `Endpoint.DenialEndpoint.SendFormatFeedback` | graphics/droidloom-denial-endpoint/src/lib.rs:575-591 | The new feedback stands even when its record cannot be sent; an older generation or a bad list changes nothing. |
| `Endpoint.DenialEndpoint.DiscardFrameOf` | graphics/droidloom-denial-endpoint/src/lib.rs:778-792 | Releases an accepted frame that was never sampled, exactly as a finished one. |
| `Endpoint.DenialEndpoint.TrackPresentation` | graphics/droidloom-denial-endpoint/src/lib.rs:908-922 | Tracks only accepted frames, at most 64 of them, and never fails for lack of room. |
| `Endpoint.DenialEndpoint.SendPresentedOf` | graphics/droidloom-denial-endpoint/src/lib.rs:935-966 | Timing is reported once for a tracked or pending frame, and not at all for a retiring task. |
| `Transport.Presentation.SubmittedKeepsValid` | graphics/droidloom-transport/src/lib.rs:257-311 | A submitted frame gets a fresh identity and keeps buffers and frames in one-to-one correspondence. |
| `Transport.Presentation.RetiredKeepsValid` | graphics/droidloom-transport/src/lib.rs:313-341 | A release keeps that correspondence. |
| `Transport.Presentation.RollbackRestores` | graphics/droidloom-transport/src/lib.rs:343-352 | Rolling an unsubmitted frame back restores the stream except for the spent identity. |
| `Transport.Presentation.SubmitsExactly` | graphics/droidloom-transport/src/lib.rs:257-311 | A frame is taken if and only if its configure is acknowledged, its fenced, free buffer is well formed, of the configured size and in an offered format, no damaged pixel lies outside, and an identity is left. |
| `Transport.Presentation.RefreshDoesNotInterrupt` | graphics/droidloom-transport/src/lib.rs:229-239 | A configure that changes only the refresh rate changes no verdict on any frame. |
| `Transport.PresentationState.ReplaceFeedback` | graphics/droidloom-transport/src/lib.rs:224-226 | Replaces the advertised formats and nothing else. |
| `Transport.PresentationState.ApplyConfigure` | graphics/droidloom-transport/src/lib.rs:229-239 | A repeated serial keeps its acknowledgement, a new one clears it. |
| `Transport.PresentationState.Acknowledge` | graphics/droidloom-transport/src/lib.rs:241-251 | Only the latest serial can be acknowledged. |
| `Transport.PresentationState.Submit` | graphics/droidloom-transport/src/lib.rs:257-311 | Reports the first reason to refuse in the source's order, or owns the buffer under the next identity. |
| `Transport.PresentationState.Release` | graphics/droidloom-transport/src/lib.rs:313-341 | Without a fence nothing changes; with one exactly the named frame is retired. |
| `Transport.PresentationState.CancelUnsubmitted` | graphics/droidloom-transport/src/lib.rs:343-352 | Retires exactly the named frame without a fence, or reports it unknown. |
| `PhoneRuns.EveryRun` | graphics/droidloom-composer-aidl/src/denial.rs:393-829 | Over every run of Android's side: no target is both reserved and busy, busy targets are the image of the injective frame map, a revoked target survives only while reserved or busy, every frame on the wire carries exactly the opacity last told to the host, and no content state or frame follows a destroy. |
| `PhoneRuns.AcquireSelects` | graphics/droidloom-composer-aidl/src/denial.rs:467-510 | A selected target was idle, of the newest geometry, not revoked, and has the lowest identity of those. |
| `PhoneRuns.PresentNeedsReservation` | graphics/droidloom-composer-aidl/src/denial.rs:748-829 | A frame leaves only for a target that was reserved, not busy, not revoked and has the same metadata. |
| `PhoneRuns.PresentSaysWhatWasSubmitted` | graphics/droidloom-composer-aidl/src/denial.rs:578-600 | The frame a successful submission sends damages a pixel if and only if the caller's rectangle contains it, or the buffer does when the caller named none; an empty rectangle gives an empty list; buffer, serial and identity are the target's, the acknowledged configure's and the stream's next. |
| `PhoneRuns.SubmissionSucceedsExactly` | graphics/droidloom-composer-aidl/src/denial.rs:569-620 | A submission succeeds if and only if the window is there and on, the stream takes the frame, the task stays, the target is the reserved one, a point is left, and kernel and socket answer. |
| `PhoneRuns.AcquiresExactly` | graphics/droidloom-composer-aidl/src/denial.rs:467-510 | A target is handed out if and only if the task stays, a pool that had to be asked for could be, an idle target of the newest geometry exists and its planes can be cloned. |
| `PhoneRuns.AsksExactly` | graphics/droidloom-composer-aidl/src/denial.rs:914-936 | A pool is asked for, under the newest serial, if and only if no usable target of it exists and none was asked for yet. |
| `PhoneRuns.FramesFollowAcks` | graphics/droidloom-composer/src/denial.rs:403-431 | Over every run a frame leaves only under a serial acknowledged after the last configure was applied, even one that repeats the serial. |
| `PhoneRuns.ReleasesExactly` | graphics/droidloom-composer-aidl/src/denial.rs:312-360 | A release is taken if and only if it answers an awaited frame under its own buffer and point; it frees exactly that frame and frees or drops its target. |
| `PhoneRuns.RevocationsWait` | graphics/droidloom-composer-aidl/src/denial.rs:436-460 | A revoked target in use stays, marked; an unused one goes; no other target changes. |
| `PhoneRuns.TargetsAreAsLent` | graphics/droidloom-composer-aidl/src/denial.rs:393-434 | Over every run each target has the serial and metadata of a record that lent it. |
| `PhoneRuns.OneRequestPerGeneration` | graphics/droidloom-composer/src/denial.rs:24-50 | Over every run of Android's side, the geometry serial changed between any two pool requests that were sent. |
| `Phone.SubmitKeepsValid` | graphics/droidloom-composer-aidl/src/denial.rs:569-620 | A submission, whatever fails on the way and also without a window, keeps the pool, the frame tables and the points consistent. |
| `Phone.HearKeepsValid` | graphics/droidloom-composer-aidl/src/denial.rs:312-460 | A host record, applied or refused, keeps Android valid, and a refused one changes nothing. |
| `Phone.AcquireKeepsValid` | graphics/droidloom-composer-aidl/src/denial.rs:467-510 | Acquiring a target, or failing to, keeps Android valid. |
| `Phone.CancelKeepsValid` | graphics/droidloom-composer-aidl/src/denial.rs:888-904 | Returning a reservation keeps Android valid. |
| `PhoneSink.DenialTaskBinding.RequestDestroy` | graphics/droidloom-composer/src/denial.rs:200-212 | Sent at most once; a failed send can be retried. |
| `PhoneSink.DenialTaskBinding.PreparePresent` | graphics/droidloom-composer/src/denial.rs:311-344 | A fresh point above every earlier one, or nothing changed. |
| `PhoneSink.DenialTaskBinding.CancelUnsubmittedPresent` | graphics/droidloom-composer/src/denial.rs:352-362 | Only the exact frame and point can be cancelled. |
| `PhoneSink.PrepareThenCancel` | graphics/droidloom-composer/src/denial.rs:311-362 | A prepared present that is cancelled leaves only its point spent. |
| `PhoneSink.TaskChannel.RegisterRenderTarget` | graphics/droidloom-composer-aidl/src/denial.rs:393-434 | Adds an idle target or reports a duplicate. |
| `PhoneSink.TaskChannel.UnregisterRenderTarget` | graphics/droidloom-composer-aidl/src/denial.rs:436-460 | Drops an idle target, marks one in use as revoked, reports an unknown one. |
| `PhoneSink.TaskChannel.EnsureRenderTargets` | graphics/droidloom-composer-aidl/src/denial.rs:914-936 | Asks for a missing pool once; a failed send leaves it to be asked again. |
| `PhoneSink.TaskChannel.FindIdle` | graphics/droidloom-composer-aidl/src/denial.rs:485-497 | The scan finds the idle target of the newest geometry with the lowest identity, and fails exactly when there is none. |
| `PhoneSink.TaskChannel.AcquireTarget` | graphics/droidloom-composer-aidl/src/denial.rs:467-510 | Reserves that target, or reports why not, after asking for a pool if needed. |
| `PhoneSink.TaskChannel.CancelReservedTarget` | graphics/droidloom-composer-aidl/src/denial.rs:888-904 | Returns the reservation and drops a revoked target; a busy one is untouched. |
| `PhoneSink.TaskChannel.SendPrepared` | graphics/droidloom-composer-aidl/src/denial.rs:795-820 | Takes a point and sends the frame under it; a failed import, export or send leaves only the point spent. |
| `PhoneSink.TaskChannel.SendSurfaceFlingerFrame` | graphics/droidloom-composer-aidl/src/denial.rs:748-829 | Metadata, frame and target change hands together; a failure keeps only the opacity told and the spent point. |
| `PhoneSink.TaskChannel.SendAccepted` | graphics/droidloom-composer-aidl/src/denial.rs:603-620 | A frame that could not be sent is rolled out of the stream and its reservation returned. |
| `PhoneSink.TaskChannel.SubmitSurfaceFlingerTarget` | graphics/droidloom-composer-aidl/src/denial.rs:569-620 | The whole submission equals its specification and keeps Android valid on every path; without a window it changes nothing, the reservation included. |
| `PhoneSink.TaskChannel.ApplyReleased` | graphics/droidloom-composer-aidl/src/denial.rs:340-357 | A release retires exactly the owed frame and frees or drops its target, or reports a mismatch without effect. |
| `PhoneSink.TaskChannel.AcknowledgeConfigure` | graphics/droidloom-composer-aidl/src/denial.rs:290-303 | Only the latest serial of an existing window is acknowledged; the binding counts it even when the send fails; Android stays valid. |
| `PhoneSink.TaskChannel.ApplyConfigured` | graphics/droidloom-composer-aidl/src/denial.rs:312-340 | A configure clears the acknowledgement and starts a new target generation only for a new serial; without a window nothing changes; Android stays valid. |
| `PhoneSink.TaskChannel.RequestTaskRemoval` | graphics/droidloom-composer-aidl/src/denial.rs:259-267 | The destroy is sent at most once and can be retried after a failed send. |
| `Scene.AssessScene` | graphics/droidloom-surface-bridge/src/layers.rs:404-463 | The single pass with three sets, early returns and a flag equals the declarative verdict on the whole scene. |
| `Scene.ValidatesExactly` | graphics/droidloom-surface-bridge/src/layers.rs:127-163 | A layer validates if and only if every destination pixel lies in the task and it is solid without ticket and allocation, or has both and every 24.8 point of its non-empty source, turned back by its transform, lies in the untransformed buffer, with corner sums in 32 bits. |
| `Scene.VerdictExactly` | graphics/droidloom-surface-bridge/src/layers.rs:404-464 | A scene is invalid unless it has its 1 to 64 layers, each showable, no two sharing an identity, an allocation or a new ticket; and it is ready if and only if every read can start now. |
| `Scene.VerdictIgnoresOrder` | graphics/droidloom-surface-bridge/src/layers.rs:404-463 | The verdict is the same for every permutation of the layers. |
| `Scene.WaitingScenesBecomeReady` | graphics/droidloom-surface-bridge/src/layers.rs:389-401 | When reads of allocations with a new ticket end, or such allocations gain a timeline, an admissible scene is never found invalid, and is ready exactly when everything it waited for was covered. |
| `Scene.WaitingIsFresh` | graphics/droidloom-surface-bridge/src/layers.rs:438-462 | What a scene waits for are allocations with a new ticket, and a busy scene waits for at least one. |
| `Scene.TicketsAreDistinct` | graphics/droidloom-surface-bridge/src/layers.rs:438-462 | All source tickets of an accepted scene are pairwise distinct, whether new or kept. |
| `Scene.KeptReadMustLast` | graphics/droidloom-surface-bridge/src/layers.rs:438-449 | If a read a layer keeps ends first, the scene becomes invalid. |
| `Scene.CommitHolds` | graphics/droidloom-wayland/src/layers.rs:1296-1376 | After an accepted scene each of its allocations holds exactly its layer's ticket and every other allocation is unchanged. |
| `Scene.TicketsNeverRepeat` | graphics/droidloom-wayland/src/layers.rs:1042-1062 | Over every history of scenes, completions and registrations, accepted scenes start reads only under tickets never used before and each held read belongs to one allocation. |
| `Staging.OverflowIsSticky` | graphics/droidloom-surface-bridge/src/layers.rs:322-361 | Over every history the stage holds everything pushed since the last reset, or is flagged as failed and holds the first 64. |
| `Staging.StagingArea.Push` | graphics/droidloom-surface-bridge/src/layers.rs:324-331 | Appends, or flags the scene and appends nothing. |
| `Staging.StagingArea.Clear` | graphics/droidloom-surface-bridge/src/layers.rs:344-347 | Drops the scene and its flag. |
| `Staging.StagingArea.Take` | graphics/droidloom-surface-bridge/src/layers.rs:350-353 | Hands out the staged scene and leaves an empty one. |
| `Staging.DecodeBatch` | graphics/droidloom-surface-bridge/src/layers.rs:273-304 | Reports exactly the first fault of a chunk, or all of its layers in order. |
| `Staging.DecodedFencesAreABijection` | graphics/droidloom-surface-bridge/src/layers.rs:273-304 | A chunk decodes only if its fence indices are a bijection from the fenced layers onto the attached descriptors, and no solid layer owns a fence. |
| `Staging.ChunkRoundTrip` | protocol/droidloom-host-v1.md:212-216 | Every chunk a producer may write, 76 bytes a layer, decodes to exactly its layers and fences. |
| `Staging.ChunkIsCanonical` | graphics/droidloom-surface-bridge/src/layers.rs:244-304 | A chunk that decodes is byte for byte the one its layers are written as. |
| `Staging.SnapshotsAreOrdered` | graphics/droidloom-surface-bridge/src/layers.rs:43-83 | Over every history snapshots never go back, equal revisions carry equal words, and once subscribed the last snapshot sent is the current configuration. |
| `Staging.SendsExactly` | graphics/droidloom-surface-bridge/src/layers.rs:69-82 | After every history a snapshot is sent if and only if a peer subscribes, or is subscribed and the words differ from the last published; the revision counts the changes, and exhaustion changes nothing. |
| `Staging.SnapshotCarriesRevision` | graphics/droidloom-surface-bridge/src/layers.rs:54-63 | The two revision words of a snapshot are the 64-bit revision. |
| `Staging.ConfigPublisher.Refresh` | graphics/droidloom-surface-bridge/src/layers.rs:44-51 | The revision moves exactly when the words change; at its end nothing changes. |
| `Staging.ConfigPublisher.UpdateConfig` | graphics/droidloom-surface-bridge/src/layers.rs:79-82 | A snapshot is emitted exactly for a change seen by a subscriber. |
| `Commands.QueueIsHistory` | graphics/droidloom-task-control/src/commands.rs:86-165 | For every history the queue equals what the history says: pending are exactly the accepted commands neither superseded, acknowledged nor discarded, with their own serials and times; serials strictly increase; the backlog never exceeds 256. |
| `Commands.CloseIsNeverLost` | graphics/droidloom-task-control/src/commands.rs:95-165 | An accepted close stays pending until its own serial is acknowledged or its object discarded; nothing supersedes it. |
| `Commands.LastResizeIsNeverLost` | graphics/droidloom-task-control/src/commands.rs:95-165 | The last resize of an object that was not closed stays pending until its own serial is acknowledged or its object discarded. |
| `Commands.LastFocusIsNeverLost` | graphics/droidloom-task-control/src/commands.rs:95-165 | An accepted focus, followed by no accepted focus and no accepted close of its object, is pending if and only if it was neither acknowledged nor discarded, whatever was resized meanwhile. |
| `Commands.PendingExactly` | graphics/droidloom-task-control/src/commands.rs:95-165 | Every accepted command is pending if and only if it was neither acknowledged nor discarded, no close of its object followed, and no focus or resize of its own kind outdated it. |
| `Commands.PushRefusesExactly` | graphics/droidloom-task-control/src/commands.rs:95-116 | A command is refused if and only if an identity or dimension is out of bounds, serials ran out, or 256 others wait and it outdates none. |
| `Commands.OneResizePerObject` | graphics/droidloom-task-control/src/commands.rs:107-115 | At most one resize of an object is pending, the last accepted. |
| `Commands.OneFocus` | graphics/droidloom-task-control/src/commands.rs:107-115 | At most one focus is pending overall, the last accepted. |
| `Commands.OnlyCloseWhenClosed` | graphics/droidloom-task-control/src/commands.rs:95-125 | Of a closed object only its close can be pending. |
| `Commands.OnlyLaterResizesWait` | graphics/droidloom-task-control/src/commands.rs:119-136 | The first resize of an object since its last discard is ready at once, every later one 80 ms after its push, and nothing else is delayed. |
| `Commands.Queue.RefusedPushChangesNothing` | graphics/droidloom-task-control/src/commands.rs:95-118 | A refused push changes nothing although coalescing runs before the backlog check. |
| `Commands.CommandQueue.Push` | graphics/droidloom-task-control/src/commands.rs:95-137 | Refuses without effect, ignores a closed object, or enqueues under the next serial; only a later resize of an object is delayed. |
| `Commands.CommandQueue.Ready` | graphics/droidloom-task-control/src/commands.rs:141-146 | The oldest command whose time has come, or none exactly when there is none. |
| `Commands.CommandQueue.Deadline` | graphics/droidloom-task-control/src/commands.rs:150-152 | The earliest time from which a command is ready. |
| `Commands.CommandQueue.Acknowledge` | graphics/droidloom-task-control/src/commands.rs:155-157 | Removes exactly the acknowledged serial. |
| `Commands.CommandQueue.Discard` | graphics/droidloom-task-control/src/commands.rs:160-165 | Forgets the object's commands and both of its marks. |
| `Composer.PresentNeedsValidation` | graphics/droidloom-composer/src/lib.rs:839-876 | In every run, from any counter value including saturation, a present succeeds only under a validation after which no layer was created, destroyed or changed other than by acceptance and nothing was presented; every layer is then client-composed and none protected. |
| `Composer.OnePresentPerValidation` | graphics/droidloom-composer/src/lib.rs:865-876 | Between two successful presents there is a validation. |
| `Composer.PresentsExactly` | graphics/droidloom-composer/src/lib.rs:865-880 | A display presents if and only if a validation stands, its changes are accepted and the display is on; a validation without changes needs no acceptance. |
| `Composer.OnlyChangesInvalidate` | graphics/droidloom-composer/src/lib.rs:713-730 | Writing back an unchanged layer changes nothing, and any real change ends the validation. |
| `Composer.LayersAreHistory` | graphics/droidloom-composer/src/lib.rs:694-765 | Over every run a layer is there if and only if it was created and not destroyed since. |
| `Composer.PowerIsOnOrOff` | graphics/droidloom-composer/src/lib.rs:606-626 | Over every run a display is only ever on or off. |
| `Composer.DisplayComposer.CreateLayer` | graphics/droidloom-composer/src/lib.rs:694-708 | Adds a new layer and ends the validation, or reports a duplicate. |
| `Composer.DisplayComposer.UpdateLayer` | graphics/droidloom-composer/src/lib.rs:713-730 | Ends the validation only if the layer really changes. |
| `Composer.DisplayComposer.DestroyLayer` | graphics/droidloom-composer/src/lib.rs:752-765 | Removes a known layer and ends the validation. |
| `Composer.DisplayComposer.ValidateDisplay` | graphics/droidloom-composer/src/lib.rs:774-796 | Refuses protected content; otherwise reports exactly the layers to change, in ascending order, and accepts at once when there are none. |
| `Composer.DisplayComposer.CollectChanges` | graphics/droidloom-composer/src/lib.rs:782-790 | The scan finds exactly the layers that are not client-composed, in ascending order. |
| `Composer.DisplayComposer.AcceptDisplayChanges` | graphics/droidloom-composer/src/lib.rs:803-815 | Needs a standing validation and power; turns every layer to client composition. |
| `Composer.DisplayComposer.PresentDisplayDirect` | graphics/droidloom-composer/src/lib.rs:865-880 | Consumes the validation, so an immediate second present is refused. |
| `Batches.DisplaysDoNotInterfere` | graphics/droidloom-composer/src/hwc3.rs:247-264 | The final state of a display and the results of its commands are those of running only its own commands, whatever the rest of the batch does and however commands fail halfway. |
| `Batches.PatchesSetLast` | graphics/droidloom-composer/src/hwc3.rs:307-331 | The first patch that cannot be applied fails the command with its own fault; of the patches before it the last to set a layer's composition, order or protection decides it, and nothing else of any layer changes. |
| `Batches.ProtectedIsNeverPresented` | graphics/droidloom-composer/src/hwc3.rs:284-379 | A command whose last word on some layer is that it is protected presents nothing, and fails as unsupported if it asks to validate. |
| `Batches.StagesAnswerExactly` | graphics/droidloom-composer/src/hwc3.rs:361-379 | Validate, accept and present: the first thing missing is the answer, the changed layers are reported in ascending order, and a present is reported if and only if it was asked for and nothing was missing. |
| `Batches.CombinedAnswersExactly` | graphics/droidloom-composer/src/hwc3.rs:338-359 | Present-or-validate presents if it could, validates if that was all that was missing, and otherwise answers why not and changes nothing. |
| `Batches.RefusedUnread` | graphics/droidloom-composer/src/hwc3.rs:284-306 | Oversized and contradictory commands and those for unknown displays change nothing and report why. |
| `Batches.TargetIsTaken` | graphics/droidloom-composer/src/hwc3.rs:332-336 | The client target of a command whose patches apply is the display's from then on. |
| `Batches.Session.ExecuteCommand` | graphics/droidloom-composer/src/hwc3.rs:284-379 | One command equals its specification; a failure keeps what was applied before it. |
| `Batches.Session.ExecutePatches` | graphics/droidloom-composer/src/hwc3.rs:307-331 | The patch loop stops at the first failing patch and keeps those before it. |
| `Batches.Session.ExecuteCommands` | graphics/droidloom-composer/src/hwc3.rs:247-264 | An oversized batch changes nothing; otherwise the replies are each command's results, changed layers in ascending order, followed by its failure under its index, and every display stays valid. |
| `Bridge.ReservationsAreOwned` | graphics/droidloom-composer-service/src/surface_bridge.rs:86-306 | Over every run with any number of connections and failures, a target is reserved exactly while one open connection holds it or once it was presented after the window went, and no connection holds more than three. |
| `Bridge.UnheldExactly` | graphics/droidloom-composer-aidl/src/denial.rs:588-601 | Over every run a target is reserved while no connection holds it if and only if some earlier step presented it after the window went. |
| `Bridge.StrandedIsReachable` | graphics/droidloom-composer-service/src/control.rs:874-879 | A run in which the destroy is requested and the window goes between acquisition and present, and the target stays reserved with no holder. |
| `Bridge.EndingReturnsEverything` | graphics/droidloom-composer-service/src/surface_bridge.rs:298-304 | However a connection ends (closed, retiring, or unable to reply), what it held stays reserved if and only if that last request presented it after the window went; whatever else stays reserved is held by another connection or was presented so before. |
| `Bridge.Drain` | graphics/droidloom-composer-service/src/surface_bridge.rs:298-304 | Returning the held targets one by one, in any order, equals returning them together. |
| `Bridge.SubmitReturns` | graphics/droidloom-composer-aidl/src/denial.rs:569-620 | A submission, successful or not, ends exactly the reservation it used if the window exists, and none if it does not. |
| `Bridge.OthersKeepReservations` | graphics/droidloom-composer-aidl/src/denial.rs:312-460 | Host records, acknowledgements, destruction and power changes leave reservations alone. |
| `Bridge.AcquiringIsBounded` | graphics/droidloom-composer-service/src/surface_bridge.rs:155-213 | A connection gets one more target if and only if it holds fewer than three, Android hands one out and the answer arrives. |
| `Registry.Registry.ReserveKeepsValid` | graphics/droidloom-composer/src/task_control.rs:142-169 | A reservation gets identities above all earlier ones and keeps the registry valid. |
| `Registry.Registry.BindKeepsValid` | graphics/droidloom-composer/src/task_control.rs:202-234 | Binding keeps the task index the exact inverse of the bindings. |
| `Registry.Registry.RemoveKeepsValid` | graphics/droidloom-composer/src/task_control.rs:346-368 | Removing keeps the task index the exact inverse of the bindings. |
| `Registry.NextExternalId` | graphics/droidloom-composer/src/task_control.rs:370-375 | The next identity, or none exactly at the end of the signed 64-bit range. |
| `Registry.TaskControlRegistry.Reserve` | graphics/droidloom-composer/src/task_control.rs:142-169 | A refused reservation spends no identity; an accepted one is inserted under the next ones. |
| `Registry.TaskControlRegistry.BindTask` | graphics/droidloom-composer/src/task_control.rs:202-234 | Binds a connected object to an unused task, or changes nothing. |
| `Registry.TaskControlRegistry.RemoveInPhase` | graphics/droidloom-composer/src/task_control.rs:346-368 | Removes exactly the object, with its index entry, in the expected phase only. |
| `Coordinator.RunIsValid` | graphics/droidloom-composer-service/src/control.rs:584-897 | In every run, with registrations failing halfway and removals interleaved: the task index is the inverse of the bindings, retired and live objects are disjoint, and the three maps of exported tasks agree. |
| `Coordinator.IdentitiesAreFresh` | graphics/droidloom-composer/src/task_control.rs:142-169 | Object and display identities strictly increase over a run, are never reused and stay within the signed 64-bit range. |
| `Coordinator.DisplayNamesOneObject` | graphics/droidloom-composer/src/task_control.rs:142-169 | A display identity names one object for the whole run. |
| `Coordinator.StaleRetireIsHarmless` | graphics/droidloom-composer-service/src/control.rs:269-285 | A connection opened on one registration of a task can retire only that registration, never a later one of the same numeric task. |
| `Coordinator.RetiredStaysRetired` | graphics/droidloom-composer-service/src/control.rs:122-129 | A retired object is never live again. |
| `Coordinator.FailedRegistrationLeavesNothing` | graphics/droidloom-composer-service/src/control.rs:624-668 | A registration that fails at either point leaves no trace in the registry or the exports, and its identity is retired exactly when the object had been staged. |
| `Lives.MapsAreLives` | graphics/droidloom-composer-service/src/control.rs:584-897 | In every run the registry and the three export maps hold, of every object, exactly the window a small per-window automaton reached: its package, display, task, export and phase. |
| `Lives.RetiredIsHistory` | graphics/droidloom-composer-service/src/control.rs:840-897 | An object is retired if and only if a step ended its life after staging or on request. |
| `Lives.WindowsKeepTheirReservation` | graphics/droidloom-composer/src/task_control.rs:142-169 | In every run a live window has the package, display and direct task of the reservation that made it. |
| `Lives.WindowsAdvance` | graphics/droidloom-composer/src/task_control.rs:171-345 | Between reservation and end a window changes nothing but its task and its phase, which only advances. |
| `Lives.ReservesExactly` | graphics/droidloom-composer/src/task_control.rs:142-169 | A window is granted if and only if fewer than 4,096 are live, both identities are left and the package is well formed. |
| `Lives.SelectsExactly` | graphics/droidloom-composer-service/src/control.rs:246-266 | In every run a connection is given a display if and only if the task's own window is bound and not being removed, and it is that window's. |
| `Coordinator.TaskCoordinator.ReserveWithKind` | graphics/droidloom-composer-service/src/control.rs:584-622 | Reserves and exports together; a task that is already exported gives the reservation back with its identities spent. |
| `Coordinator.TaskCoordinator.BeginRemoval` | graphics/droidloom-composer-service/src/control.rs:840-866 | A reservation is cancelled and retired at once; any other object enters removal. |
| `Coordinator.TaskCoordinator.FinishRemoval` | graphics/droidloom-composer-service/src/control.rs:877-897 | Only an object in removal is dropped, with all its exports, and retired. |
| `Coordinator.TaskCoordinator.ResolveRetire` | graphics/droidloom-composer-service/src/control.rs:269-281 | Resolves only to the live registration the connection was opened on. |
| `Vsync.NextVsyncIsExact` | graphics/droidloom-composer-aidl/src/service.rs:558-564 | The answer is the least grid point after now if and only if that point fits 64 bits; otherwise the largest 64-bit value. |
| `Vsync.SaturationBreaksTheClock` | graphics/droidloom-composer-aidl/src/service.rs:558-564 | A concrete input at the end of the range for which the answer is neither after now nor on the grid. |
| `Vsync.NoDrift` | graphics/droidloom-composer-aidl/src/service.rs:406-419 | Over every run of a clock whose phase is set, or that no compatible sample reaches, delivered times strictly increase in the first tick's residue class, and the next tick is exactly one period per delivered or skipped tick after the first. |
| `Vsync.SampledOnce` | graphics/droidloom-composer-aidl/src/service.rs:135-142 | A run of an unphased clock is two runs without drift: on its own schedule up to the first compatible sample, and on the schedule that sample set for the whole rest. |
| `Vsync.TicksIncrease` | graphics/droidloom-composer-aidl/src/service.rs:406-419 | Over every run of every clock, with times read in order, delivered times strictly increase, also across the change of phase. |
| `Vsync.FirstSampleSetsThePhase` | graphics/droidloom-composer-aidl/src/service.rs:135-142 | Feedback never moves a phased clock; an unphased one moves to the first grid point of the first compatible sample and then stays. |
| `Vsync.CompatibleExactly` | graphics/droidloom-composer-aidl/src/service.rs:571-573 | Periods are compatible if and only if they differ by at most one nanosecond or one percent of the clock's own. |
| `Vsync.StartFollowsThePhase` | graphics/droidloom-composer-aidl/src/service.rs:118-133 | A clock started on a compatible phase ticks first at the first grid point after now; otherwise one period from now, unphased. |
| `Vsync.VsyncSchedule.Tick` | graphics/droidloom-composer-aidl/src/service.rs:406-419 | One pass ticks exactly the due clocks and lists their displays, scheduled times and periods in ascending order of display. |
| `Vsync.DueListIsExact` | graphics/droidloom-composer-aidl/src/service.rs:406-414 | An entry is listed if and only if its display's clock is due, with that clock's scheduled time and period. |
| `Vsync.VsyncSchedule.ObservePresentation` | graphics/droidloom-composer-aidl/src/service.rs:286-310 | A zero period or a host-driven clock changes nothing; otherwise the sample is kept for later starts and each clock observes it. |
| `Vsync.VsyncSchedule.SetEnabled` | graphics/droidloom-composer-aidl/src/service.rs:231-251 | A zero period is refused; enabling starts exactly that display on the kept sample, disabling removes exactly it. |
| `Vsync.VsyncSchedule.UpdatePeriod` | graphics/droidloom-composer-aidl/src/service.rs:253-270 | A zero period is refused; a running clock restarts only for a different period, and a stopped one is never started. |
| `Wire.ReadIsPut` | graphics/droidloom-denial-protocol/src/lib.rs:2203-2255 | Whatever can be read from bytes writes those bytes again. |
| `Wire.PutIsRead` | graphics/droidloom-denial-protocol/src/lib.rs:2163-2200 | Whatever is written can be read back, with the following bytes untouched. |
| `Wire.ParseIsPut` | graphics/droidloom-denial-protocol/src/lib.rs:2203-2255 | A payload parses to a list of fields exactly when the fields have the layout and write those bytes, with nothing left over. |
| `Cursors.Writer.AppendAll` | graphics/droidloom-denial-protocol/src/lib.rs:2163-2200 | Appending fields one by one writes the payload of those fields. |
| `Cursors.Reader.Take` | graphics/droidloom-denial-protocol/src/lib.rs:2208-2235 | The next bytes as one little-endian value, or truncation without consuming. |
| `Cursors.Reader.TakeAll` | graphics/droidloom-denial-protocol/src/lib.rs:2203-2255 | Reading field by field equals reading the layout. |
| `Cursors.Reader.TakeDamage` | graphics/droidloom-denial-protocol/src/lib.rs:1544-1560 | The damage loop returns the whole list, or fails on truncation or on any bad rectangle. |
| `Packet.AssembledParses` | graphics/droidloom-denial-protocol/src/lib.rs:2264-2303 | Every assembled packet parses back to its header and payload for any supported minor version. |
| `Packet.ParsedIsAssembled` | graphics/droidloom-denial-protocol/src/lib.rs:2315-2356 | Every packet that parses was assembled from its header, with the received descriptor count and within 65,536 bytes. |
| `AndroidCodec.RoundTrip` | graphics/droidloom-denial-protocol/src/lib.rs:1241-1416 | Encoding succeeds exactly for valid messages, within the packet bound, and decodes to the same message and descriptor roles; a decoder without the opcode reports it unknown. |
| `CodecBounds.AndroidSendsExactly` | graphics/droidloom-denial-protocol/src/lib.rs:1241-1416 | An Android message encodes if and only if no identity, serial, generation or point it names is zero and its other contents are in bounds; the descriptors it carries are named by message. |
| `CodecBounds.AndroidStamp` | graphics/droidloom-denial-protocol/src/lib.rs:2280-2303 | Only what newer peers added raises the minor version of its packet, and the header names the message's object. |
| `CodecBounds.PresentOnTheWire` | graphics/droidloom-denial-protocol/src/lib.rs:1350-1382 | The object, frame, buffer, serial, both points and the rectangle count of a frame lie at fixed bytes of its packet. |
| `AndroidCodec.Canonical` | graphics/droidloom-denial-protocol/src/lib.rs:1431-1648 | A packet that decodes re-encodes to itself except for the two minor-version bytes. |
| `AndroidCodec.DecodeIsInjective` | graphics/droidloom-denial-protocol/src/lib.rs:1431-1648 | Two packets that decode alike differ at most in the minor version. |
| `DenialCodec.RoundTrip` | graphics/droidloom-denial-protocol/src/lib.rs:1659-1898 | The same for the other direction, and the Android decoder rejects its packets as unknown opcodes. |
| `CodecBounds.DenialSendsExactly` | graphics/droidloom-denial-protocol/src/lib.rs:1659-1898 | The same for Denial messages. |
| `CodecBounds.DenialStamp` | graphics/droidloom-denial-protocol/src/lib.rs:2280-2303 | The same for the minor version of Denial packets. |
| `CodecBounds.LeastCapabilities` | graphics/droidloom-denial-protocol/src/lib.rs:79-86 | The least capability word a peer may have is the required one. |
| `DenialCodec.Canonical` | graphics/droidloom-denial-protocol/src/lib.rs:1910-2161 | A packet that decodes re-encodes to itself except for the two minor-version bytes. |
| `DenialCodec.AndroidIsForeign` | graphics/droidloom-denial-protocol/src/lib.rs:1910-2161 | An Android packet decoded in this direction always fails with its opcode as unknown. |
| `DenialCodec.DecodeIsInjective` | graphics/droidloom-denial-protocol/src/lib.rs:1910-2161 | Two packets that decode alike differ at most in the minor version. |
| `Text.PackageIsText` | graphics/droidloom-denial-protocol/src/lib.rs:2517-2526 | A valid package name is UTF-8, so the text check never rejects one. |
| `Text.PackagesAreNames` | graphics/droidloom-denial-protocol/src/lib.rs:2517-2526 | A package name is valid if and only if it is up to 255 bytes of non-empty names of letters, digits and underscores joined by dots. |
| `Text.TextIsSpelled` | graphics/droidloom-denial-protocol/src/lib.rs:2237-2246 | The text check passes exactly the spellings of Unicode scalar values by section 3 of RFC 3629. |
| `ControlCodec.RequestRoundTrip` | graphics/droidloom-task-control/src/lib.rs:265-486 | Valid requests, and only those, encode within 4,096 bytes and decode to themselves, and the response decoder reports them unknown. |
| `ControlCodec.ResponseRoundTrip` | graphics/droidloom-task-control/src/lib.rs:493-657 | The same for responses. |
| `CodecBounds.RequestsExactly` | graphics/droidloom-task-control/src/lib.rs:265-382 | A request encodes if and only if no identity it names is zero and its other contents are in bounds. |
| `CodecBounds.RespondsExactly` | graphics/droidloom-task-control/src/lib.rs:493-580 | The same for responses. |
| `ControlCodec.RequestIsCanonical` | graphics/droidloom-task-control/src/lib.rs:383-486 | A record that decodes as a request re-encodes to itself except for the minor version. |
| `ControlCodec.ResponseIsCanonical` | graphics/droidloom-task-control/src/lib.rs:581-657 | A record that decodes as a response re-encodes to itself except for the minor version. |
| `ControlCodec.RequestIsInjective` | graphics/droidloom-task-control/src/lib.rs:383-486 | Two records that decode to the same request differ at most in the minor version. |
| `ControlCodec.ResponseIsInjective` | graphics/droidloom-task-control/src/lib.rs:581-657 | Two records that decode to the same response differ at most in the minor version. |

## Left out

- Socket system calls, descriptor passing and peer credentials: the channel is an ordered lossless queue or a failed send.
- DRM sync objects, EGL and GLES: a fence operation succeeds or fails.
- Eventual completion of task removal: it depends on the compositor, and the release of a retiring task never reaches Android.
- The composition path that renders layers on Android before presenting: the command executor never reaches it.
- Binder wrappers, callbacks, frame tracing, audit counters, input forwarding, headless fences: plumbing without shared protocol state.
- Lock poisoning: each body under a lock is one atomic step.
- Forgetting the channel of a removed task, in the runs of `Bridge`: a target presented after the window went stays reserved for the rest of the run, in the source until the channel is dropped.
- Records that end the pump or the connection by themselves (error, repeated hello, legacy input and display power) and records without a task; presentations of scenes, which cannot fail.
- Task bindings, input routes and activation requests: PhoneRuns.EveryRun does not cover them, and the source does not check them against a requested destroy.
- Presentation timestamps and the vertical-sync sample they produce inside the task stream: a presented record changes nothing in the protocol model; that a refresh rate is known by then is proved.
- Window-set bookkeeping by package and the display-extent pin: only add easy members.
- The layer stream's own request records other than chunks of layers: their framing repeats what the other codecs show.
- Frame grants of the host clock: they deliver one sample per grant and keep no state.
- AndroidCodec.Decode: which of several payload faults is reported first is not modelled; header faults, unknown opcodes and descriptor counts are kept apart, all other faults are one error.
- DenialCodec.Decode: the same as for the Android direction.
- ControlCodec.DecodeRequest: the same as for the Denial protocol.
- Commands.CommandQueue.Push: an instant is a natural number of nanoseconds.
- Vsync.VsyncSchedule.Tick: the audit counters are not modelled.
