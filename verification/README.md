# Bluetooth audio core

A Dafny model of the platform-independent core of a Bluetooth headphone module, the crate
`bluetooth-audio-core`, and proofs about it. `dafny verify dfyconfig.toml` checks everything.

The code that updates fields and buffers in place is modelled as classes and methods that do the same. Beside each stands
a module of functions on values (`AvrcpSpec`, `AvdtpSpec`, `AudioInputSpec`, `MediaSpec`, `Mp3Spec`, `L2cap`); every
method is proved equal to its function, on every input and every error path, and the properties of whole runs are proved
of the functions.

- **Volume (AVRCP).** `Avrcp`, `AvrcpSpec`; `AvrcpAnswers` (what single packets mean, in any state); `AvrcpSystem`: two
  endpoints joined by two FIFO channels of bytes, the target free to refuse.
- **Byte ring and playback endpoint.** `Ring` (each call undisturbed), `RingSteps` (every load, byte copy and
  compare-exchange interleaved, with session resets), `AudioInput`, `AudioInputSpec`, `AudioInputRuns`,
  `AudioInputHistory` (the endpoint told from its calls, answers and callbacks alone), `Ownership`, and the cursor
  arithmetic in `Slots`. `WriteRace`: a write against `start` and against the operations that also reset the ring.
- **Signalling (AVDTP).** `Avdtp`, `AvdtpSpec`; `AvdtpFragments` (reassembly), `AvdtpChoice` (SBC capabilities),
  `AvdtpRuns` (invariants and histories), `AvdtpStreams` (the stream told from the messages alone), `AvdtpOffer` (what the
  source says of itself), `AvdtpWalk` (finding a sink), `AvdtpExtremes` (runs that reach the limits). The `fragment_*`
  fields are held in an object of their own, `Reassembly`. Packets are those of AVDTP 1.3, section 8; the SBC elements
  those of A2DP, section 4.3.2.
- **MP3 input.** `Mp3`, `Mp3Spec` (window, tags, answers), `Id3` (a writer of tags), `Resampler` (fixed-point resampling),
  `Mp3Sound` (what is heard on each side).
- **Pacing and RTP.** `Media`, `MediaSpec`, `IdealClock` (the pacer in time that never wraps), `Rtp` (a reader of packets).
- **L2CAP rewriting.** `Compatibility` edits bytes in place; `L2cap` is the structure it must preserve (Bluetooth Core,
  Volume 3, Part A, sections 4.4 and 5).
- **Remembered peers and scan results.** `Peer`, `Discovery`.

## Assumptions

- Threads: sequential consistency; resets are atomic. A reset may fall anywhere except between the two cursor loads of
  one read; `RingSteps.TornReadExactly` says what happens otherwise. Cursors advance by less than 2^32 during one call.
  Playback operations and callbacks are atomic steps in `AudioInputRuns`.
- AVDTP: runs (`AvdtpRuns`, `AvdtpStreams`, `AvdtpWalk`) take an `out` of at least sixteen bytes, and only
  `media_connected` is set from outside. The methods themselves are proved for any `out`.
- The MP3 decoder and the SBC encoder are parameters: `Decoding` is any answer the code lets through its checks.
- Times are the caller's; clock readings are taken modulo 2^32.

## Findings

- Volume agreement needs a bound on unanswered commands, and a target that does not decline the newest volume command:
  fifteen and that condition are exact (`AvrcpSystem.FifteenIsExact`). A declined slider move stays on show
  (`AvrcpSystem.DeclinedVolumeDisagrees`); refused registrations and superseded volume commands do no harm.
- A refused registration frees its label exactly if the refusal's parameters do not look like a volume notification; if
  they do, the label stays taken, a new registration is refused, and the second parameter is taken for the volume
  (`AvrcpAnswers.RefusalFreesItsLabel`).
- A read torn by a reset delivers discarded bytes and puts the tail ahead of the head, if nothing refills the ring before
  its second load (`RingSteps.TornReadDeliversDiscarded`). In general it delivers more than the queue exactly if what it
  takes exceeds what the queue holds at that load (`RingSteps.TornReadExactly`); refilled in time, it is harmless
  (`RingSteps.RefilledTornReadIsHarmless`).
- Active playback states belong to an open MP3 endpoint exactly as long as every current `mark_playing` and
  `mark_underrun` finds one (`AudioInputRuns.ActiveExactlyWhenGuarded`). The code does not check it: the first generation is
  live before anything is opened (`AudioInputRuns.UndisciplinedCallbackPlaysClosedEndpoint`), and a closed endpoint can
  even be set draining (`AudioInputRuns.ClosedEndpointDrains`).
- A write overtaken by a change of the generation can publish bytes that are read before it is refused
  (`WriteRace.RefusedByteIsRead`), exactly under the condition of `WriteRace.CommitDoomsExactly`; bytes of a session gone
  by become readable exactly under that of `WriteRace.CommitLeavesStaleExactly`.
- `start` changes the generation without a reset. A write that it overtakes is refused, and the reset in its recheck throws
  away the unread bytes of earlier writes, which were told that they were accepted (`WriteRace.StartLosesAccepted`).
  Accepted bytes are lost without a stop, flush or other invalidation exactly when such a write rechecks while more is
  unread than it put in (`WriteRace.AcceptedBytesLostExactly`).
- `MAX_PACKET` is a byte per frame too small for joint stereo at bitpool 53: five such frames do not fit a buffer of that
  size, and nothing else fails to (`Media.FullPacketFits`).
- A late AVDTP response is taken for the answer exactly when its command lies a multiple of sixteen commands back and has
  the signal that is pending (`AvdtpRuns.IgnoredExactly`); `AvdtpExtremes.LateAnswerIsTaken` is a run in which it happens.
- With nothing pending, a response with signal 0 and the last label is not ignored but an error; it sends nothing and
  moves no stream (`AvdtpRuns.SignalZeroIsNotIgnored`).
- A sink is given up on an unusable answer to GET_ALL_CAPABILITIES even if GET_CAPABILITIES would have shown usable SBC
  (`AvdtpExtremes.UnusableAnswerHidesUsable`, exactly: `AvdtpWalk.UnsupportedExactlyWhenHidden`).

## Model

| member | source | states |
|---|---|---|
| `AvrcpSystem.QuietVolumesAgree` | crates/bluetooth-audio-core/src/avrcp.rs:141-296 | two instances, one as controller and one as target, over lossless FIFO channels: in every interleaving of slider moves, registrations, target changes and refusals of registrations or superseded volume commands, with at most fifteen commands unanswered, whenever both channels are empty the controller is unsubscribed or `Registered` with exactly the target's volume |
| `AvrcpSystem.FifteenIsExact` | crates/bluetooth-audio-core/src/avrcp.rs:164-296 | that agreement holds in every run if and only if at most fifteen commands may be unanswered and the target never declines the newest volume command (with no command allowed there is none to decline) |
| `AvrcpSystem.DeclinedVolumeDisagrees` | crates/bluetooth-audio-core/src/avrcp.rs:279-289 | a concrete run in which the target rejects the newest volume command: quiet, `Registered`, volume 1 against 0 |
| `AvrcpSystem.SixteenUnansweredDisagree` | crates/bluetooth-audio-core/src/avrcp.rs:464-479 | a concrete run with sixteen unanswered commands reuses a live label and ends quiet, `Registered` at volume 1 against 100 |
| `AvrcpSystem.EveryRunSettles` | crates/bluetooth-audio-core/src/avrcp.rs:197-296 | from every reachable state, delivering what is in flight (two deliveries a command, one an answer) reaches quiet agreement |
| `AvrcpSystem.LabelsNeverCollide` | crates/bluetooth-audio-core/src/avrcp.rs:464-491 | in every such run the two live labels differ, stay 4-bit, and `state` is the one the labels and the registration flag stand for |
| `AvrcpSystem.WindowPush` | crates/bluetooth-audio-core/src/avrcp.rs:464-479 | a new label is none of the labels still unanswered while fewer than fifteen are, and the window of labels in use stays consecutive |
| `AvrcpSystem.TargetObeys` | crates/bluetooth-audio-core/src/avrcp.rs:350-411 | byte for byte, what a target does with a volume command or a registration, the one answer it sends and the event it reports |
| `AvrcpSystem.ControllerHears` | crates/bluetooth-audio-core/src/avrcp.rs:197-296 | byte for byte, what each answer, refusals included, does to the controller, the event reported, and that nothing is sent back |
| `AvrcpSpec.FrameRoundTrip` | crates/bluetooth-audio-core/src/avrcp.rs:413-462 | every frame either side writes is read back as exactly what was written |
| `AvrcpSpec.CandidatesDiffer` | crates/bluetooth-audio-core/src/avrcp.rs:464-479 | three consecutive candidate labels differ, so two live labels cannot hold them all |
| `Avrcp.Controller.constructor` | crates/bluetooth-audio-core/src/avrcp.rs:99-109 | a new endpoint is disconnected with no live label |
| `Avrcp.Controller.RefreshState` | crates/bluetooth-audio-core/src/avrcp.rs:481-491 | the new state is the derived one, nothing else changes |
| `Avrcp.Controller.AllocateTransaction` | crates/bluetooth-audio-core/src/avrcp.rs:464-479 | the first label round the circle that is not live; the `unreachable!` is never reached |
| `Avrcp.Controller.WriteFrame` | crates/bluetooth-audio-core/src/avrcp.rs:413-462 | the bytes of the frame at the front of `out`, the rest of `out` unchanged |
| `Avrcp.Controller.Command` | crates/bluetooth-audio-core/src/avrcp.rs:438-462 | a command takes a label only if it fits the buffer and the length field |
| `Avrcp.Controller.SetAbsoluteVolume` | crates/bluetooth-audio-core/src/avrcp.rs:164-177 | whole new state, result and output as specified |
| `Avrcp.Controller.RegisterVolumeNotification` | crates/bluetooth-audio-core/src/avrcp.rs:179-195 | whole new state, result and output as specified |
| `Avrcp.Controller.Connect` | crates/bluetooth-audio-core/src/avrcp.rs:111-118 | connecting enters `Ready` with the volume given, then registers |
| `Avrcp.Controller.ConnectSilently` | crates/bluetooth-audio-core/src/avrcp.rs:123-139 | the two connects that send nothing |
| `Avrcp.Controller.TargetVolumeChanged` | crates/bluetooth-audio-core/src/avrcp.rs:141-158 | a local change answers the pending notification once |
| `Avrcp.Controller.ReceivePassThrough` | crates/bluetooth-audio-core/src/avrcp.rs:298-348 | which panel operations are accepted, and the echo sent |
| `Avrcp.Controller.ReceiveCommand` | crates/bluetooth-audio-core/src/avrcp.rs:350-411 | answers to capabilities, absolute volume, registration and unknown commands |
| `Avrcp.Controller.ReceiveResponse` | crates/bluetooth-audio-core/src/avrcp.rs:243-295 | only answers carrying a live label change anything |
| `Avrcp.Controller.Receive` | crates/bluetooth-audio-core/src/avrcp.rs:197-296 | the whole receive path on every byte string, malformed ones included |
| `Avrcp.Controller.Disconnect` | crates/bluetooth-audio-core/src/avrcp.rs:160-162 | forgets everything: the endpoint is as a new one |
| `AvrcpAnswers.RefusalFreesItsLabel` | crates/bluetooth-audio-core/src/avrcp.rs:243-296 | any endpoint: REJECTED or NOT_IMPLEMENTED under the label of the volume command frees that label; under that of the registration it frees that one if and only if its parameters are not those of a volume notification; the state is then the derived one, the volume kept, and the operation can be sent again; under no live label nothing happens |
| `AvrcpAnswers.ResponsesExactly` | crates/bluetooth-audio-core/src/avrcp.rs:243-296 | any response at all: exactly when each label is freed, the registration confirmed, the volume changed, and which event is reported; no other field changes |
| `AvrcpAnswers.ConnectingSendsVolume` | crates/bluetooth-audio-core/src/avrcp.rs:111-118 | connecting sends the volume under a free label and waits, or is refused and changes nothing |
| `AvrcpAnswers.RegisteringWaits` | crates/bluetooth-audio-core/src/avrcp.rs:179-195 | a registration sent reads back as one, under a label of its own, and waits for its first volume |
| `AvrcpAnswers.DisconnectedRefuses` | crates/bluetooth-audio-core/src/avrcp.rs:141-209 | a disconnected endpoint refuses packets and requests and does not change |
| `AvrcpAnswers.KeysAreHeard` | crates/bluetooth-audio-core/src/avrcp.rs:298-348 | a key press of the four is reported once as its control, its release accepted silently, every other key answered NOT_IMPLEMENTED, the answer being the command under its label |
| `AvrcpAnswers.OnlyControlsAreKeys` | crates/bluetooth-audio-core/src/avrcp.rs:298-312 | responses are ignored; pass-through commands other than CONTROL, or of another length than they announce, are errors |
| `AvrcpAnswers.OfferedEventsCanBeRegistered` | crates/bluetooth-audio-core/src/avrcp.rs:350-411 | a peer that asks which events there are can register for exactly those: INTERIM for each, REJECTED for every other |
| `AvrcpAnswers.CompanyIsTheFrames` | crates/bluetooth-audio-core/src/avrcp.rs:350-369 | the company told is the one whose identifier the frames carry |
| `RingSteps.RefinesQueue` | crates/bluetooth-audio-core/src/audio_input.rs:109-172 | every step of producer, consumer and reset (each load, byte copy and compare-exchange its own step) is a step of a plain queue or invisible to it |
| `RingSteps.DeliversInOrder` | crates/bluetooth-audio-core/src/audio_input.rs:109-172 | in every interleaving the bytes read since the last reset are a prefix of the bytes accepted since, in order and once each, and the rest is in the ring; cursors wrap freely |
| `RingSteps.StoreMissesPublished` | crates/bluetooth-audio-core/src/audio_input.rs:109-133 | no store of the producer touches a published unread slot |
| `RingSteps.CommitFailsExactlyWhenStale` | crates/bluetooth-audio-core/src/audio_input.rs:109-172 | a commit returns 0 and moves nothing exactly if a reset came after the call's snapshot |
| `RingSteps.StraddlingCallsStayStale` | crates/bluetooth-audio-core/src/audio_input.rs:109-172 | a reset makes every call in progress stale until its commit, and nothing else does |
| `RingSteps.TornReadDeliversDiscarded` | crates/bluetooth-audio-core/src/audio_input.rs:135-160 | a reset between the two loads of a read, with nothing else before it commits, makes it deliver discarded bytes and push the tail past the head; this is why that schedule is excluded |
| `RingSteps.TornReadExactly` | crates/bluetooth-audio-core/src/audio_input.rs:135-160 | any read whose loaded head is older than its tail, undisturbed from its second load on: it delivers the front of the queue and keeps the cursors in order if and only if what it takes is no more than the queue then holds, and otherwise delivers more than the queue and puts the tail ahead; what it takes is min(want, capacity) while the cursors are not all the way round |
| `RingSteps.RefilledTornReadIsHarmless` | crates/bluetooth-audio-core/src/audio_input.rs:135-160 | the witness for the harmless side: the ring is refilled between the loads and the torn read delivers exactly the byte written |
| `Slots.CapacityDivides` | crates/bluetooth-audio-core/src/audio_input.rs:89-97 | every capacity the constructor admits divides the range of the cursors |
| `Slots.SlotsDiffer` | crates/bluetooth-audio-core/src/audio_input.rs:117-124 | positions closer than the capacity use different slots |
| `Ring.InputRing.constructor` | crates/bluetooth-audio-core/src/audio_input.rs:90-97 | an empty ring |
| `Ring.InputRing.Used` | crates/bluetooth-audio-core/src/audio_input.rs:99-103 | the number of unread bytes |
| `Ring.InputRing.Write` | crates/bluetooth-audio-core/src/audio_input.rs:109-133 | appends the bytes that fit, in place, and says how many |
| `Ring.InputRing.Read` | crates/bluetooth-audio-core/src/audio_input.rs:135-160 | moves the oldest bytes out, leaves the rest of `output` alone |
| `Ring.InputRing.Reset` | crates/bluetooth-audio-core/src/audio_input.rs:166-172 | empties the ring |
| `AudioInputRuns.EveryByteAccounted` | crates/bluetooth-audio-core/src/audio_input.rs:372-395 | in every run of operations and callbacks, bytes accepted = consumed + queued + discarded by resets, modulo 2^32 |
| `AudioInputRuns.DrainIsClosedToWrites` | crates/bluetooth-audio-core/src/audio_input.rs:254-395 | from any reachable draining state no write is accepted and the queue only shrinks from its old end; only stop, flush, close, `mark_drained` and `fail` end the drain, and `open` exactly if the endpoint is not open |
| `AudioInputRuns.GuardedDrainsEndOnlyByTheFive` | crates/bluetooth-audio-core/src/audio_input.rs:362-525 | in every guarded run (see `ActiveExactlyWhenGuarded`) a drain is left by those five only |
| `AudioInputRuns.ClosedEndpointDrains` | crates/bluetooth-audio-core/src/audio_input.rs:362-370 | a run without the guard sets a closed endpoint draining, and `open` takes it out of the drain |
| `AudioInputRuns.DrainLosesNothing` | crates/bluetooth-audio-core/src/audio_input.rs:510-518 | whenever `mark_drained` stops the stream, every accepted byte not discarded has been consumed |
| `AudioInputRuns.StaleCallbacksChangeNothing` | crates/bluetooth-audio-core/src/audio_input.rs:466-525 | a callback with a generation read before a later successful open, close, set_format, start, stop or flush changes nothing, for fewer than 2^32 of them |
| `AudioInputRuns.OnlyTheSixBeginEras` | crates/bluetooth-audio-core/src/audio_input.rs:254-360 | exactly these six operations, exactly when they succeed, advance the generation |
| `AudioInputRuns.ActiveExactlyWhenGuarded` | crates/bluetooth-audio-core/src/audio_input.rs:466-508 | for every run: CONFIGURED through DRAINING imply an open endpoint set to MP3 throughout, if and only if every `mark_playing` and `mark_underrun` with the current generation finds one |
| `AudioInputRuns.ActiveImpliesOpenMp3` | crates/bluetooth-audio-core/src/audio_input.rs:283-395 | callbacks that only carry generations captured by a successful start are guarded in that sense, for fewer than 2^32 eras |
| `AudioInputRuns.UndisciplinedCallbackPlaysClosedEndpoint` | crates/bluetooth-audio-core/src/audio_input.rs:466-484 | the code has no such guard: a callback with the first generation sets a closed endpoint playing |
| `AudioInputHistory.EndpointIsItsHistory` | crates/bluetooth-audio-core/src/audio_input.rs:254-543 | after every run each field is what the log of calls, answers and callbacks says: the state by the last entry that moved the stream, the queue by the bytes written and consumed since the ring was last emptied, reports, format, volume and counters by the entries since they were last set or cleared |
| `AudioInputHistory.PausedExactly` | crates/bluetooth-audio-core/src/audio_input.rs:325-342 | the stream is paused exactly if the last successful operation or current callback that moves the state was a pause; a resume succeeds exactly then and gives buffering |
| `AudioInputHistory.FailureRefusesWrites` | crates/bluetooth-audio-core/src/audio_input.rs:372-383 | writes fail with Io exactly from a current failure until the next entry that moves the stream, while a format is set |
| `AudioInputHistory.WritesTakeWhatFits` | crates/bluetooth-audio-core/src/audio_input.rs:372-395 | a write takes the bytes that fit the room left by the history, Again exactly without room, and is refused in a drain, after a failure and before a stream is set up |
| `AudioInputHistory.AnswersAreTheHistorys` | crates/bluetooth-audio-core/src/audio_input.rs:254-446 | the answer of every operation, its error included, from what moved the stream last and what is open and set |
| `WriteRace.StaleExactlyBeforeTheRecheck` | crates/bluetooth-audio-core/src/audio_input.rs:372-395 | a write racing `start` and the invalidations at the grain of its loads, ring operations and recheck: outside an invalidation the ring holds bytes from before the running session exactly while a write from before it has committed some, they are not all read, and it has not rechecked; the ring then holds nothing else |
| `WriteRace.CommitLeavesStaleExactly` | crates/bluetooth-audio-core/src/audio_input.rs:372-388 | a commit leaves such bytes readable exactly if its write is from before the running session, the invalidation is over, no reset followed its snapshot, and there was room |
| `WriteRace.DoomedExactlyBeforeTheRecheck` | crates/bluetooth-audio-core/src/audio_input.rs:384-388 | a byte whose write is under way and will be refused is readable exactly while an overtaken write, by `start` or by an invalidation, has committed bytes, not all read, and not rechecked |
| `WriteRace.CommitDoomsExactly` | crates/bluetooth-audio-core/src/audio_input.rs:372-388 | a commit brings that about exactly if its write is overtaken, no reset followed its snapshot, and it has a byte |
| `WriteRace.RecheckIsExact` | crates/bluetooth-audio-core/src/audio_input.rs:384-394 | the recheck refuses exactly the overtaken writes and then leaves the ring empty; otherwise it accepts what was committed, touches nothing, and the ring holds no byte from before the running session |
| `WriteRace.RefusalHitsSessionExactly` | crates/bluetooth-audio-core/src/audio_input.rs:384-388 | outside an invalidation, a refusal throws away bytes of the running session exactly if its write belongs to that session and anything is unread |
| `WriteRace.AcceptedBytesLostExactly` | crates/bluetooth-audio-core/src/audio_input.rs:308-395 | over every run: accepted bytes are thrown away outside an invalidation exactly when an overtaken write rechecks while more is unread than it put in, and it was then overtaken by `start` alone |
| `WriteRace.StartLosesAccepted` | crates/bluetooth-audio-core/src/audio_input.rs:308-388 | a run in which a byte is accepted, `start` overtakes the next write, and the recheck of that write throws both away |
| `WriteRace.RefusedByteIsRead` | crates/bluetooth-audio-core/src/audio_input.rs:384-388 | a run in which the consumer reads a byte whose write is then refused |
| `Ownership.OneOwnerOneBody` | crates/bluetooth-audio-core/src/audio_input.rs:247-281 | at compare-exchange grain, clients that close only what they opened: at most one holds the endpoint open, from the swap in its open to the store in its close, control calls in between included, and no two control bodies overlap |
| `AudioInput.Endpoint.constructor` | crates/bluetooth-audio-core/src/audio_input.rs:203-224 | a closed endpoint over an empty ring |
| `AudioInput.Endpoint.TryControl` | crates/bluetooth-audio-core/src/audio_input.rs:247-252 | takes the control lock exactly if it is free |
| `AudioInput.Endpoint.ResetCounters` | crates/bluetooth-audio-core/src/audio_input.rs:527-533 | clears the five counters only |
| `AudioInput.Endpoint.InvalidateAndReset` | crates/bluetooth-audio-core/src/audio_input.rs:535-543 | next generation, empty ring, next state |
| `AudioInput.Endpoint.Open` | crates/bluetooth-audio-core/src/audio_input.rs:254-271 | whole new state and answer |
| `AudioInput.Endpoint.Close` | crates/bluetooth-audio-core/src/audio_input.rs:273-281 | whole new state and answer |
| `AudioInput.Endpoint.SetFormat` | crates/bluetooth-audio-core/src/audio_input.rs:283-306 | whole new state and answer, every refusal included |
| `AudioInput.Endpoint.Start` | crates/bluetooth-audio-core/src/audio_input.rs:308-323 | whole new state and answer |
| `AudioInput.Endpoint.Pause` | crates/bluetooth-audio-core/src/audio_input.rs:325-333 | whole new state and answer |
| `AudioInput.Endpoint.Resume` | crates/bluetooth-audio-core/src/audio_input.rs:335-342 | whole new state and answer |
| `AudioInput.Endpoint.Stop` | crates/bluetooth-audio-core/src/audio_input.rs:344-351 | whole new state and answer |
| `AudioInput.Endpoint.Flush` | crates/bluetooth-audio-core/src/audio_input.rs:353-360 | whole new state and answer |
| `AudioInput.Endpoint.Drain` | crates/bluetooth-audio-core/src/audio_input.rs:362-370 | whole new state and answer |
| `AudioInput.Endpoint.Write` | crates/bluetooth-audio-core/src/audio_input.rs:372-395 | whole new state and answer, the four refusals included |
| `AudioInput.Endpoint.Consume` | crates/bluetooth-audio-core/src/audio_input.rs:459-464 | the oldest bytes, counted |
| `AudioInput.Endpoint.MarkPlaying` | crates/bluetooth-audio-core/src/audio_input.rs:466-484 | only a current generation in an active state |
| `AudioInput.Endpoint.AddPcmFrames` | crates/bluetooth-audio-core/src/audio_input.rs:489-493 | counts for the current generation |
| `AudioInput.Endpoint.AddRtpPackets` | crates/bluetooth-audio-core/src/audio_input.rs:495-499 | counts for the current generation |
| `AudioInput.Endpoint.MarkUnderrun` | crates/bluetooth-audio-core/src/audio_input.rs:501-508 | only while playing |
| `AudioInput.Endpoint.MarkDrained` | crates/bluetooth-audio-core/src/audio_input.rs:510-518 | stops only a drained, empty stream of the current generation |
| `AudioInput.Endpoint.Fail` | crates/bluetooth-audio-core/src/audio_input.rs:520-525 | records the error for the current generation |
| `AudioInput.Endpoint.SetVolume` | crates/bluetooth-audio-core/src/audio_input.rs:429-435 | refuses what is above the maximum |
| `AudioInput.Endpoint.RestoreVolume` | crates/bluetooth-audio-core/src/audio_input.rs:440-446 | restores without an open endpoint |
| `AvdtpWalk.WalkFindsFirst` | crates/bluetooth-audio-core/src/avdtp.rs:295-454 | against a peer with fixed well-formed answers, and whatever else arrives in any number of fragments: the walk configures the first of the first eight eligible sinks in DISCOVER order that offers usable SBC, returns `Unsupported` exactly if none does, and has sent at most 1 + 2 × sinks commands before that; 2 × sinks + 1 answers decide it |
| `AvdtpWalk.NoiseIsIgnored` | crates/bluetooth-audio-core/src/avdtp.rs:189-342 | during the walk, everything that neither answers the pending command nor closes leaves the negotiation where it is |
| `AvdtpWalk.AnswerOnward` | crates/bluetooth-audio-core/src/avdtp.rs:295-454 | every answer takes the walk strictly further: to the next query, to the configuration, or to the verdict that none serves |
| `AvdtpRuns.RunsKeep` | crates/bluetooth-audio-core/src/avdtp.rs:151-437 | in every run the pending signal fits the state; from SET_CONFIGURATION on a discovered sink is selected with valid SBC and the services last sent; opening through suspending imply `local_in_use`; labels count the commands modulo sixteen |
| `AvdtpRuns.ConfigurationIsAnswered` | crates/bluetooth-audio-core/src/avdtp.rs:606-634 | after every run GET_CONFIGURATION is answered with exactly the service bytes of the last SET_CONFIGURATION sent, or refused if nothing is set up |
| `AvdtpRuns.ClosedForGood` | crates/bluetooth-audio-core/src/avdtp.rs:635-648 | once a CLOSE or ABORT has been accepted the source stays Idle and never sends a command again |
| `AvdtpRuns.DuplicatesChangeNothing` | crates/bluetooth-audio-core/src/avdtp.rs:302-305 | between messages, any response to a command that is no longer pending changes nothing while fewer than sixteen commands lie between |
| `AvdtpRuns.ResponsesIgnoredExactly` | crates/bluetooth-audio-core/src/avdtp.rs:302-364 | any response, in any state, is ignored if and only if its signal and label are not those last pending |
| `AvdtpRuns.SignalZero` | crates/bluetooth-audio-core/src/avdtp.rs:302-364 | with nothing pending, signal 0 under the last label is not ignored; the exact error, and that only the last refusal noted can change |
| `AvdtpRuns.SignalZeroIsNotIgnored` | crates/bluetooth-audio-core/src/avdtp.rs:302-437 | so it is in every run with a command sent and none pending: an error, nothing sent, no stream moved |
| `AvdtpRuns.IgnoredExactly` | crates/bluetooth-audio-core/src/avdtp.rs:354-364 | the exact condition for any distance: ignored unless the pending command has the same signal and lies a multiple of sixteen commands later |
| `AvdtpRuns.EveryCommandIsAnswered` | crates/bluetooth-audio-core/src/avdtp.rs:554-710 | every command of the peer gets exactly one response under its label and signal; exactly unknown signals get a general reject; START, SUSPEND, CLOSE and ABORT are accepted exactly when in order; what is not accepted changes nothing |
| `AvdtpStreams.StreamsExactlyWhenFlowing` | crates/bluetooth-audio-core/src/avdtp.rs:151-437 | after every run the state is Streaming or Suspending exactly if the last START or SUSPEND that either side accepted was a START and nothing has closed the stream since |
| `AvdtpStreams.StateIsTold` | crates/bluetooth-audio-core/src/avdtp.rs:151-710 | after every run the state, and the command pending with its label, are determined by the messages exchanged: the last command sent, how it was answered, and what the peer was told since |
| `AvdtpStreams.RefusalUndoes` | crates/bluetooth-audio-core/src/avdtp.rs:161-187 | after a successful start or suspend and anything at all while it waits, any refusal under its label restores state, SEIDs, SBC, sinks and `localInUse` to what the request found, and the request can be made again |
| `AvdtpStreams.StreamIsReleased` | crates/bluetooth-audio-core/src/avdtp.rs:295-648 | an accepted close, or a refusal of the DISCOVER or SET_CONFIGURATION awaited, leaves nothing of the stream behind |
| `AvdtpOffer.ListingRead` | crates/bluetooth-audio-core/src/avdtp.rs:366-405 | of any list of end points written as DISCOVER answers write it, exactly the free audio sinks are considered, in order |
| `AvdtpOffer.OnlyEntriesAreRead` | crates/bluetooth-audio-core/src/avdtp.rs:373-393 | bytes with a reserved bit set are no end point |
| `AvdtpOffer.OwnEndPoint` | crates/bluetooth-audio-core/src/avdtp.rs:561-580 | a peer is shown one audio source, in use while a sink is configured |
| `AvdtpOffer.OffersWhatItTakes` | crates/bluetooth-audio-core/src/avdtp.rs:581-605 | the capabilities answered read back as elements that suit this source itself, at every bitpool it sends, with delay reporting in the answer to GET_ALL_CAPABILITIES only |
| `AvdtpOffer.DelayIsTaken` | crates/bluetooth-audio-core/src/avdtp.rs:649-658 | a delay report is taken, for its big-endian value, exactly with delay reporting configured |
| `AvdtpOffer.RefusalsNameTheFault` | crates/bluetooth-audio-core/src/avdtp.rs:554-710 | the error code and the end point every refusal names, in any state |
| `AvdtpExtremes.BoundIsMet` | crates/bluetooth-audio-core/src/avdtp.rs:295-454 | for every number of sinks from 1 to 8 and for both verdicts, a well-formed peer and a walk that sends exactly 1 + 2 × sinks commands before the verdict |
| `AvdtpExtremes.EveryListStreams` | crates/bluetooth-audio-core/src/avdtp.rs:151-437 | and from there a run to streaming, set up as SET_CONFIGURATION said |
| `AvdtpExtremes.LateAnswerIsTaken` | crates/bluetooth-audio-core/src/avdtp.rs:354-364 | a run in which the acceptance of a START sixteen commands back, long acted on, is taken for the answer to the one pending |
| `AvdtpExtremes.UnusableAnswerHidesUsable` | crates/bluetooth-audio-core/src/avdtp.rs:295-325 | a well-formed peer whose sink would serve at the second query, and a walk that gives it up after the first |
| `AvdtpWalk.UnsupportedExactlyWhenHidden` | crates/bluetooth-audio-core/src/avdtp.rs:295-454 | a finished walk found no sink exactly if every candidate that offers usable SBC to either query answers the first one with something unusable |
| `AvdtpRuns.CommandsTakeTurns` | crates/bluetooth-audio-core/src/avdtp.rs:279-342 | a received message makes the source send a command only if it answers the pending one |
| `AvdtpChoice.ChoiceIsExact` | crates/bluetooth-audio-core/src/avdtp.rs:456-548 | for every well-formed answer a configuration is chosen if and only if some element offers 44.1 kHz stereo or joint stereo, 16 blocks, 8 subbands, Loudness and a bitpool in 27..39; it is exactly the bitpools of the last such element, stereo preferred, and SET_CONFIGURATION carries it |
| `AvdtpChoice.MalformedIsRefused` | crates/bluetooth-audio-core/src/avdtp.rs:456-468 | any payload that is not a list of elements is an error, and nothing is sent or negotiated |
| `AvdtpChoice.JoinedElements` | crates/bluetooth-audio-core/src/avdtp.rs:456-512 | reading takes a joined list of service elements apart again |
| `AvdtpChoice.WholeIsJoined` | crates/bluetooth-audio-core/src/avdtp.rs:456-512 | a payload is read to its end exactly if it is such a list |
| `AvdtpFragments.FragmentationIsTransparent` | crates/bluetooth-audio-core/src/avdtp.rs:189-277 | any split of a message of up to 126 bytes has the effect of the single packet, at the last fragment, if the announced count is right; with any other count nothing happens and the last fragment is refused |
| `AvdtpFragments.StartIsTakenExactly` | crates/bluetooth-audio-core/src/avdtp.rs:207-229 | a START packet opens a message exactly if none is open and it announces two fragments or more of a known signal; otherwise it is an error |
| `AvdtpFragments.ErrorsLeaveNothing` | crates/bluetooth-audio-core/src/avdtp.rs:189-277 | after any error no partial message remains |
| `Avdtp.Endpoint.constructor` | crates/bluetooth-audio-core/src/avdtp.rs:115-149 | a new source |
| `Avdtp.Endpoint.Respond` | crates/bluetooth-audio-core/src/avdtp.rs:722-737 | the packet at the front of `out`, or `Overflow` |
| `Avdtp.Endpoint.Command` | crates/bluetooth-audio-core/src/avdtp.rs:712-719 | takes the next label; pending only if it fits |
| `Avdtp.Endpoint.Connect` | crates/bluetooth-audio-core/src/avdtp.rs:151-159 | whole new state, result and output |
| `Avdtp.Endpoint.Start` | crates/bluetooth-audio-core/src/avdtp.rs:161-173 | whole new state, result and output |
| `Avdtp.Endpoint.Suspend` | crates/bluetooth-audio-core/src/avdtp.rs:175-187 | whole new state, result and output |
| `Avdtp.Endpoint.Receive` | crates/bluetooth-audio-core/src/avdtp.rs:189-277 | whole new state, result and output on every packet |
| `Avdtp.Endpoint.ReceiveStart` | crates/bluetooth-audio-core/src/avdtp.rs:207-229 | a START packet |
| `Avdtp.Endpoint.ReceiveRest` | crates/bluetooth-audio-core/src/avdtp.rs:231-276 | CONTINUE and END packets, dispatch of the assembled message |
| `Avdtp.Endpoint.Dispatch` | crates/bluetooth-audio-core/src/avdtp.rs:279-293 | by message type |
| `Avdtp.Endpoint.Reject` | crates/bluetooth-audio-core/src/avdtp.rs:295-342 | every refusal |
| `Avdtp.Endpoint.Accept` | crates/bluetooth-audio-core/src/avdtp.rs:354-437 | every acceptance |
| `Avdtp.Endpoint.ListSinks` | crates/bluetooth-audio-core/src/avdtp.rs:366-405 | the DISCOVER answer: first eight eligible sinks |
| `Avdtp.Endpoint.FilterSinks` | crates/bluetooth-audio-core/src/avdtp.rs:373-393 | the first eight eligible SEIDs in order |
| `Avdtp.Endpoint.NextSinkCapabilities` | crates/bluetooth-audio-core/src/avdtp.rs:441-454 | the next sink or `Unsupported` |
| `Avdtp.Endpoint.ChooseSbc` | crates/bluetooth-audio-core/src/avdtp.rs:456-548 | whole new state, result and output |
| `Avdtp.Endpoint.ScanElements` | crates/bluetooth-audio-core/src/avdtp.rs:456-514 | the loop over the elements against its list specification |
| `Avdtp.Endpoint.RemoteCommand` | crates/bluetooth-audio-core/src/avdtp.rs:554-710 | the answer to every command of the peer |
| `Avdtp.Endpoint.RemoteClose` | crates/bluetooth-audio-core/src/avdtp.rs:635-648 | CLOSE and ABORT |
| `Avdtp.Endpoint.RemoteDelay` | crates/bluetooth-audio-core/src/avdtp.rs:649-658 | DELAY_REPORT |
| `Avdtp.Endpoint.RemoteStream` | crates/bluetooth-audio-core/src/avdtp.rs:659-695 | START and SUSPEND |
| `Avdtp.Reassembly.Reset` | crates/bluetooth-audio-core/src/avdtp.rs:344-352 | forgets the partial message |
| `Avdtp.Reassembly.Begin` | crates/bluetooth-audio-core/src/avdtp.rs:216-228 | stores the START payload in the buffer |
| `Avdtp.Reassembly.Append` | crates/bluetooth-audio-core/src/avdtp.rs:246-255 | appends a fragment in the buffer |
| `Mp3Spec.WindowIsFifo` | crates/bluetooth-audio-core/src/mp3.rs:278-388 | across any pushes and decode steps, pending bytes are the bytes accepted minus those reported consumed; pushes never move more bytes than were consumed |
| `Mp3Spec.FullWindowIsLong` | crates/bluetooth-audio-core/src/mp3.rs:285-302 | `free()` = 0 implies more than 8192 pending bytes, and a window too short to decode always accepts input |
| `Mp3Spec.TagsAreSkippedExactly` | crates/bluetooth-audio-core/src/mp3.rs:324-388 | in every run, where a tag begins as a tagger writes it, its length with footer being T, every continuation consumes exactly T bytes before the decoder sees another; where none begins the decoder is asked |
| `Mp3Spec.TagsExactly` | crates/bluetooth-audio-core/src/mp3.rs:497-515 | ten bytes are taken for a header, and for which length, exactly if they are the header of a tag of some size below 2^28 in seven-bit digits |
| `Mp3Spec.TagIsItsOwnLength` | crates/bluetooth-audio-core/src/mp3.rs:497-515 | a whole tag, body and footer, with anything behind it, is recognised for the number of its own bytes |
| `Mp3Spec.DecodeMovesOn` | crates/bluetooth-audio-core/src/mp3.rs:324-388 | a step that succeeds consumes a byte or asks for more with all consumed space reclaimed; an error consumes nothing |
| `Mp3Spec.DecodingEnds` | crates/bluetooth-audio-core/src/mp3.rs:324-388 | decoding until more is asked for, or an error, takes no more steps than there are bytes |
| `Mp3Spec.AsksForMoreExactly` | crates/bluetooth-audio-core/src/mp3.rs:331-358 | more is asked for exactly with less than 2048 bytes pending before the end, or when the decoder can use none |
| `Mp3Spec.FramesPlayExactly` | crates/bluetooth-audio-core/src/mp3.rs:88-209 | a frame found is played exactly if rate, sides, volume, length and room allow it, and reported as found; unknown rates and numbers of sides are told apart |
| `Mp3Spec.DiscardStartsAnew` | crates/bluetooth-audio-core/src/mp3.rs:392-398 | discarding leaves a new reader but for the resampler |
| `Mp3Spec.TagLengthIgnoresChunking` | crates/bluetooth-audio-core/src/mp3.rs:497-515 | the length is the same however the stream was cut |
| `Mp3Spec.RunsDoNotDrift` | crates/bluetooth-audio-core/src/mp3.rs:324-388 | in every run of the reader, since the last rate change the frames written are the source duration at 44.1 kHz rounded up and the carried phase is below the rate |
| `Mp3.Mp3ByteStream.constructor` | crates/bluetooth-audio-core/src/mp3.rs:233-243 | an empty window |
| `Mp3.Mp3ByteStream.Reset` | crates/bluetooth-audio-core/src/mp3.rs:269-276 | an empty window |
| `Mp3.Mp3ByteStream.FreeSpace` | crates/bluetooth-audio-core/src/mp3.rs:285-291 | the room a push may use |
| `Mp3.Mp3ByteStream.Push` | crates/bluetooth-audio-core/src/mp3.rs:294-302 | appends what fits, compacting if needed |
| `Mp3.Mp3ByteStream.Compact` | crates/bluetooth-audio-core/src/mp3.rs:304-310 | moves the pending bytes to the front |
| `Mp3.Mp3ByteStream.Consume` | crates/bluetooth-audio-core/src/mp3.rs:312-318 | drops bytes from the front |
| `Mp3.Mp3ByteStream.SkipTag` | crates/bluetooth-audio-core/src/mp3.rs:331-350 | skips a tag or what remains of one |
| `Mp3.Mp3ByteStream.WriteStereo` | crates/bluetooth-audio-core/src/mp3.rs:132-159 | the samples written at 44.1 kHz |
| `Mp3.Mp3ByteStream.WriteResampled` | crates/bluetooth-audio-core/src/mp3.rs:161-208 | the samples written when resampling, the phase carried, and that its 32-bit sum fits |
| `Mp3.Mp3ByteStream.DecodeNext` | crates/bluetooth-audio-core/src/mp3.rs:324-388 | whole new state, result, and every output sample |
| `Mp3.Mp3ByteStream.Render` | crates/bluetooth-audio-core/src/mp3.rs:366-376 | every output sample and the phase carried on |
| `Mp3Sound.SidesAreHeard` | crates/bluetooth-audio-core/src/mp3.rs:132-209 | left is heard on the left and right on the right, mono on both: every output sample is, at the volume, the source sample or a point within four units of the line through its two neighbours |
| `Mp3.Mp3ByteStream.DiscardIncomplete` | crates/bluetooth-audio-core/src/mp3.rs:392-398 | drops the rest and says how much |
| `Resampler.EverySampleAccurate` | crates/bluetooth-audio-core/src/mp3.rs:179-208 | every output sample stands at the exact position phase + k × rate inside the source, lies between its two neighbours (last frame held) and within 4 units of exact interpolation |
| `Resampler.InterpolationAccurate` | crates/bluetooth-audio-core/src/mp3.rs:482-494 | the Q15 arithmetic: between the neighbours, within 4 units, no 32-bit intermediate wraps |
| `Resampler.PhaseCarried` | crates/bluetooth-audio-core/src/mp3.rs:179-207 | the phase carried on is in range, and every output position lies inside the frame |
| `Resampler.CarriedSumFits` | crates/bluetooth-audio-core/src/mp3.rs:206 | the sum the carried phase is taken from stays below 2^32 for every frame the PCM buffer holds |
| `Resampler.NoDrift` | crates/bluetooth-audio-core/src/mp3.rs:179-207 | for any frames of at least two sample frames at one rate, total output is ceil(44100 × frames / rate) |
| `Resampler.Resample` | crates/bluetooth-audio-core/src/mp3.rs:430-479 | the in-place loop writes exactly the specified samples |
| `Resampler.ScaleVolume` | crates/bluetooth-audio-core/src/mp3.rs:407-417 | scales each sample toward zero |
| `MediaSpec.NeverTooFarAhead` | crates/bluetooth-audio-core/src/media.rs:172-208 | audio sent since the anchor never exceeds elapsed time plus lead plus one packet, to the microsecond; the 64-bit products do not overflow |
| `IdealClock.ClockIsIdeal` | crates/bluetooth-audio-core/src/media.rs:172-216 | however often 32-bit time has wrapped: exactly the samples sent since the stream began, resumed or was written off are counted, the worst lateness of all polls is kept, and a packet is asked for exactly when one is due |
| `MediaSpec.NeverSaturates` | crates/bluetooth-audio-core/src/media.rs:201-208 | the saturating 64-bit counter never saturates |
| `MediaSpec.WaitIsLeast` | crates/bluetooth-audio-core/src/media.rs:180-189 | `Wait(w)` is exactly the least delay after which poll says `Send` |
| `MediaSpec.BurstsAreBounded` | crates/bluetooth-audio-core/src/media.rs:190-197 | a burst at one instant adds at most 401 ms, the lead and one packet, and so ends |
| `MediaSpec.PunctualSenderNeverLags` | crates/bluetooth-audio-core/src/media.rs:190-197 | a sender that comes back within the lead of its last completed burst never raises the worst lag |
| `Media.PacketClock.constructor` | crates/bluetooth-audio-core/src/media.rs:154-169 | a clock with its lead |
| `Media.PacketClock.Reset` | crates/bluetooth-audio-core/src/media.rs:172-175 | forgets the anchor |
| `Media.PacketClock.Poll` | crates/bluetooth-audio-core/src/media.rs:180-197 | whole new state and answer |
| `Media.PacketClock.Sent` | crates/bluetooth-audio-core/src/media.rs:201-208 | counts a packet, anchoring the first |
| `Media.PacketClock.TakeWorstLagMs` | crates/bluetooth-audio-core/src/media.rs:210-212 | reads and clears the worst lag |
| `Media.StreamPacketizer.New` | crates/bluetooth-audio-core/src/media.rs:40-61 | the most frames, up to five, whose packet fits the MTU |
| `Media.StreamPacketizer.PacketLength` | crates/bluetooth-audio-core/src/media.rs:63-68 | refusal or the length, which fits `MAX_PACKET` unless five frames of 119 bytes are asked for |
| `Media.FullPacketFits` | crates/bluetooth-audio-core/src/media.rs:16-61 | the fullest packet of a packetizer fits `MAX_PACKET` if and only if it is not joint stereo at bitpool 53 with an MTU of at least 608 |
| `Media.StreamPacketizer.WriteHeader` | crates/bluetooth-audio-core/src/media.rs:73-95 | a receiver of RTP (RFC 3550) reads back version 2, payload type 96, the one source, the marker and frame count given, the packet's number and the samples before it; every header of the run does so, and the counters are the wrapped counts of everything written |
| `Media.HeaderReads` | crates/bluetooth-audio-core/src/media.rs:84-90 | the header read field by field, with anything behind it |
| `Media.HeadersAdvance` | crates/bluetooth-audio-core/src/media.rs:91-94 | from packet to packet the number advances by one modulo 2^16, the timestamp by 128 per frame modulo 2^32, and the rest is kept |
| `Media.StreamPacketizer.NextDelayMs` | crates/bluetooth-audio-core/src/media.rs:97-102 | delays are exact over any number of packets: what rounding drops is carried |
| `Media.StreamPacketizer.StartupPackets` | crates/bluetooth-audio-core/src/media.rs:107-118 | the fewest packets, at most sixteen, covering the reported delay |
| `Compatibility.RewritePreservesMeaning` | crates/bluetooth-audio-core/src/compatibility.rs:23-82 | whenever a length is reported, reading the payload again gives the same packet with one command shortened, nothing beyond the old packet changes, and otherwise the payload is untouched |
| `Compatibility.RequestLosesOneOption` | crates/bluetooth-audio-core/src/compatibility.rs:46-74 | the shortened Configuration Request has the same fields and options but its first exact `7F 01 01` |
| `Compatibility.TargetExactly` | crates/bluetooth-audio-core/src/compatibility.rs:38-83 | the command edited is the first Configuration Request (code 4) for a dynamic channel, with zero flags, that carries 7F 01 01, provided the options of those before it are well-formed |
| `Compatibility.AnyCidIsThatCid` | crates/bluetooth-audio-core/src/compatibility.rs:11-21 | a rewrite for any CID is the rewrite for the CID of the request it edited |
| `Compatibility.StripMatching` | crates/bluetooth-audio-core/src/compatibility.rs:23-82 | the in-place rewrite, on every payload, is the parsed packet rebuilt without the option |
| `Compatibility.StripOption` | crates/bluetooth-audio-core/src/compatibility.rs:11-13 | for one channel |
| `Compatibility.StripOptionAnyCid` | crates/bluetooth-audio-core/src/compatibility.rs:19-21 | for any channel |
| `Compatibility.FindRequest` | crates/bluetooth-audio-core/src/compatibility.rs:39-81 | the outer loop finds what the search on the parsed packet finds |
| `Compatibility.FindOption` | crates/bluetooth-audio-core/src/compatibility.rs:53-76 | the inner loop finds the first exact option or the defect before it |
| `Compatibility.TakeOut` | crates/bluetooth-audio-core/src/compatibility.rs:64-73 | closes the gap, clears the tail, repairs three lengths |
| `L2cap.UnparseParsed` | crates/bluetooth-audio-core/src/compatibility.rs:84-103 | a packet read from bytes is written back as those bytes |
| `L2cap.ParseUnparsed` | crates/bluetooth-audio-core/src/compatibility.rs:84-103 | a packet written is read back, whatever follows it |
| `L2cap.SignallingCut` | crates/bluetooth-audio-core/src/compatibility.rs:64-73 | cutting three bytes is removing one option of one command |
| `Peer.RecordRoundTrip` | crates/bluetooth-audio-core/src/peer.rs:14-46 | a stored peer decodes to itself, bonded and without signal strength, exactly if its address is not zero |
| `Peer.UnreadableNameReplaced` | crates/bluetooth-audio-core/src/peer.rs:14-46 | a name that is not UTF-8 decodes to the fallback text |
| `Peer.TextExactly` | crates/bluetooth-audio-core/src/discovery.rs:33-35 | a name is taken for text exactly if it is Unicode scalar values, each encoded as RFC 3629 does |
| `Peer.OneDamagedByteIsCaught` | crates/bluetooth-audio-core/src/peer.rs:8-46 | if a record decodes, every record differing in exactly one byte is refused |
| `Peer.StepInjective` | crates/bluetooth-audio-core/src/peer.rs:8-12 | each FNV-1a step is injective in the hash and in the byte |
| `Peer.MixedIsXor` | crates/bluetooth-audio-core/src/peer.rs:8-12 | the mixing step is the exclusive or of every bit |
| `Peer.PublishedValues` | crates/bluetooth-audio-core/src/peer.rs:8-12 | the check words of no bytes and of one byte are the published values of FNV-1a |
| `Peer.Encode` | crates/bluetooth-audio-core/src/peer.rs:14-25 | fills the record field by field |
| `Discovery.KeepsLatestOfFirstTwelve` | crates/bluetooth-audio-core/src/discovery.rs:104-128 | after any results the records are those of the first twelve distinct nonzero addresses, each the latest |
| `Discovery.InterleavingDoesNotShow` | crates/bluetooth-audio-core/src/discovery.rs:104-141 | with at most twelve addresses, the table does not depend on how results of different addresses were interleaved |
| `Discovery.BeforeIsStrictTotal` | crates/bluetooth-audio-core/src/discovery.rs:144-151 | the order is strict and total on distinct addresses |
| `Discovery.PresentationOrder` | crates/bluetooth-audio-core/src/discovery.rs:144-151 | a table is in order exactly if audio devices come first, within each kind the stronger signal, and under equal signals the lower address as a number |
| `Discovery.AudioIsServiceOrClass` | crates/bluetooth-audio-core/src/discovery.rs:50-55 | a device is audio exactly with the Audio service or the major class Audio/Video, however its class is composed |
| `Discovery.SortedUnique` | crates/bluetooth-audio-core/src/discovery.rs:130-141 | a sorted table is determined by its records |
| `Discovery.ShowsUnique` | crates/bluetooth-audio-core/src/discovery.rs:97-141 | so the table is a function of the records |
| `Discovery.DiscoveryTable.constructor` | crates/bluetooth-audio-core/src/discovery.rs:67-74 | an empty table |
| `Discovery.DiscoveryTable.BeginScan` | crates/bluetooth-audio-core/src/discovery.rs:78-83 | a new epoch, no entries |
| `Discovery.DiscoveryTable.Upsert` | crates/bluetooth-audio-core/src/discovery.rs:104-128 | the records are updated as a map is, the entries stay their sorted listing, and refusals are counted |
| `Discovery.DiscoveryTable.Position` | crates/bluetooth-audio-core/src/discovery.rs:108-115 | finds an address |
| `Discovery.DiscoveryTable.Sort` | crates/bluetooth-audio-core/src/discovery.rs:130-141 | sorts in place, keeping the records |
| `Discovery.DiscoveryTable.Insert` | crates/bluetooth-audio-core/src/discovery.rs:131-140 | one pass of the insertion sort |

## Left out

- `TonePacketizer` (media.rs): its headers, counters and remainder pacing are those of `StreamPacketizer` with a fixed
  number of frames.
- `percent_to_absolute` and `absolute_to_percent` (avrcp.rs): finite tables of rounding, not inverses of each other.
- `controller.rs`, `ui.rs`, `address.rs`, `model.rs`, and the device crate: guards around platform calls, presentation,
  records and foreign interfaces.
- The MP3 decoder, the SBC encoder and the encoded tone frames: opaque data; only the checks around them are modelled.
- The weak memory model and in-place initialisation (`initialize_at`): the Release/Acquire pairs are read as sequential
  consistency.
- AudioInput.Endpoint.Write: undisturbed, so the generation it reads again after the copy is the one it read before; the
  path where it differs is in `WriteRace`, without the byte counters.
- Ring.InputRing.Write: undisturbed, so its compare-exchange succeeds; the lost one, which returns 0, is in `RingSteps`.
- Ring.InputRing.Read: undisturbed, so its compare-exchange succeeds; the lost one, which returns 0, is in `RingSteps`.
- Ownership.OneOwnerOneBody: clients close only what they opened; `close` itself does not check who opened.
- Media.PacketClock.Poll: the 64-bit products are formed in unbounded integers; `MediaSpec.NeverTooFarAhead` shows that
  they fit.
- `MAX_SAMPLES` is the PCM buffer's length, 2304; the decoder crate that defines it is not part of this model.
- The `generation` field of the AVDTP source, which nothing in it reads, and the diagnostic `status` and `errno` views.
- Device names in `Discovery` are byte strings; cutting and decoding them is modelled in `Peer`.
