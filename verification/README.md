# USBDisplayStack: a verified model

This project models the daemon `usb-displayd`, the stream it reads, the PPM sink, the replay tool and the readiness
script `usbdisplay-check` of USBDisplayStack, and proves what they promise. Read it from the main results down:

- **Dispatcher** (`Dispatcher`, `Timing`, `NewestWins`, `Damage`): `run_loop` as a class whose loop works off a
  script of environment answers (poll and read outcomes, clock samples, submit and tick results, stop requests). It
  is proved equal to a chain of stage functions; all properties are about every script, that is, every run.
- **Stream and slot safety** (`Abi`, `Stream`, `SlotSafety`, `Sessions`, `StreamDamage`, `LossyDamage`): the mapping
  as one flat run of bytes, a producer that may publish into any slot except the held one at any moment (also while
  a submit is reading), and the proof that each submit sees one coherent snapshot, in one generation and over a life
  of many.
- **Supervisor** (`Supervisor`, `Generations`, `Reconnect`, `DaemonLife`): the reconnect loop of `main` with nested
  dispatcher runs, judged by an independent observer that knows the rules for resources, marker and numbering but
  none of the supervisor's variables; `DaemonLife` joins it to the stream.
- **Readiness marker** (`Marker`, `Checker`, `Readiness`): printed in C, parsed in shell.
- **Replay container** (`Replay`, `ReplayTheorems`): the `DPRPL001` reader, dry-run and live.
- **PPM sink and test pattern** (`Ppm`, `P6`, `TestPattern`, `EndToEnd`): from the application's bytes to the image
  file.

## What the results rest on

- *Clock.* The timing and damage results, and some on the newest frame, assume a clock that never goes back and
  never fails (`MonotoneClock`). The code does not check for failure: `monotonic_nanoseconds` answers 0 then.
  `SecondSubmitIff` and `FailedClockSubmitsTwice` say what this does to the number of submits per round. Slot safety
  does not need the assumption: it holds when readings fail (`FlakyClock`, implied by a monotone clock), and the
  invariant behind it, as well as the end-to-end result, under any readings at all. That the 64-bit hold deadline
  does not overflow is `DeadlineFits`.
- *Mapping size.* `main` compares `map_bytes` with a 32-bit product. `MappingSafeIffNoWrap` shows that `slot_count *
  slot_bytes < 2^32` is exactly what keeps accepted frames inside the mapping; `NoWrap` is a premise where memory is
  read.
- *Strides, formats, damage.* `validate_update` checks none of them. `ReadEndExact` shows that a stride that covers
  the row is exactly what keeps the sink within `stride * height`; `RowsFit` is a premise of the end-to-end result.
  Formats other than the two known ones make the sink fail.
- *Damage.* The premise of `DamageRefinement` compares consecutive *reads*. The kernel computes damage per *publish*
  and may replace an unread update, so the premise does not follow from the stream alone: `PatientStreamFaithful`
  has the condition on the stream under which it does, and `ReplacedUpdateLosesDamage` is a run on a conforming
  stream that leaves a stale pixel.
- *INITIAL.* On a backend that is not physical, reading INITIAL changes the frame on show but submits nothing, so
  the image keeps the last application update; the end-to-end result speaks of application updates for that reason.
- *`unlink`.* Its result is ignored. Ownership, numbering and the marker's history do not depend on it; truthful
  readiness does, and `TruthfulIff` says exactly how (`FailedUnlinkLies` is a script that lies). No marker is there
  at the start.
- *Marker fields.* The daemon prints the backend's name unchecked. A name with a line end, or one that ends with its
  only `=`, is not read back as published (`MarkerRoundTripIff`), and may still be found valid: `ForgedGeneration`
  is a family of names that forge a generation (`ForgedIsPublished`: one that is published), and the word `foo=` is
  read as `foo`. What holds for every name is `AnyNameReads` and `PhysicalReadyOnlyIf`; for names without line ends
  `VerdictIff` is exact. The shell compares 63-bit integers.
- *Replay.* A stop request can arrive between a write and the count, so a live run may have sent one report more
  than it counts (`LiveSendsInOrder`).
- *Pace.* The upper timing bounds rest on one hypothesis about the environment (`Pace`): a successful submit takes
  at most `b`, `poll` returns within its timeout plus `d` of the clock sample before it, and the tick's sample comes
  within `d` of the one before it. `b` and `d` are parameters.
- Both supported hosts are little-endian.

Script entries answer one call each. A 0 in an errno field means success; calls beyond the end of a script are
stated where the script is declared.

## Model

| member | source | states |
|---|---|---|
| `SlotSafety.SlotSafety` | userspace/usb-displayd.c:347-434 | Over every interleaving with a producer that may overwrite any slot but the held one, each submit of each round (new frame or refresh) passes the splash, or a frame in the mapping whose bytes, after every prefix of the publishes that happen during the submit, are exactly those published under the frame's sequence. Clock readings may fail (be 0). |
| `SlotSafety.RunInStep` | userspace/usb-displayd.c:347-442 | Before every round of every run, under any clock: a pending update lies in the held slot and still has its published bytes, and without a pending update so does the application frame on show. |
| `SlotSafety.RoundInStep` | userspace/usb-displayd.c:347-442 | One round keeps that invariant, and what it submits or may refresh is pinned at that moment. |
| `SlotSafety.SubmitInStep` | userspace/usb-displayd.c:385-434 | The submit stage hands over a frame in the held slot and leaves it pinned until the round ends. |
| `SlotSafety.PollInStep` | userspace/usb-displayd.c:352-383 | A read moves the hold to the slot it announces; afterwards the pending update, or else the frame on show, lies in the held slot. |
| `SlotSafety.CoherentThroughout` | docs/architecture.md:32-39 | A frame pinned when a submit starts shows its published snapshot after any prefix of any burst of allowed publishes. |
| `SlotSafety.FrameInSlot` | userspace/usb-displayd.c:390-392 | With a mapping size that does not wrap, the frame built from a validated update starts at its slot and ends inside it; neither `size_t` product wraps. |
| `Timing.RefreshOnlyHeld` | userspace/usb-displayd.c:384-434 | Even when clock readings fail, an application frame is never refreshed while a newer read waits (that read has released the frame's slot). |
| `Timing.HoldWasOver` | userspace/usb-displayd.c:385-412 | An application frame is on show only after an earlier round sampled a time at or past the hold deadline, whatever the clock does. |
| `SlotSafety.PinnedIsSafe` | docs/architecture.md:32-39 | A submit that starts with its frame in the held slot and unchanged is safe for its whole duration. |
| `SlotSafety.ReadsRise` | docs/abi.md:9-10 | Within one opening of the stream, two reads from a conforming producer carry strictly rising sequences. |
| `DaemonLife.DaemonOnStream` | userspace/usb-displayd.c:545-614 | The supervisor, its dispatcher runs and the stream together, with a monotone clock: over every supervisor script and every conforming producer, each submit of each generation is safe for its whole duration, and the sequence of the application frames submitted never goes down. |
| `DaemonLife.DaemonIsLife` | userspace/usb-displayd.c:545-614 | What a supervisor script serves, with one burst of publishes after each opening of the stream in between, is a life on one stream: the stream is opened anew before every generation but the first. |
| `DaemonLife.ServicesInLog` | userspace/usb-displayd.c:545-614 | The served attempts are those of the supervisor's log: as many entries into `run_loop`, each after as many openings of the stream since the entry before. |
| `DaemonLife.ReopenedBetween` | userspace/usb-displayd.c:546-555 | Between two served attempts the stream is opened at least once. |
| `Sessions.SafeThroughLife` | userspace/usb-displayd.c:545-614 | Slot safety over a life of any number of generations on one stream that is reopened in between: only the first start of the stream is assumed sound, and clock readings may fail. |
| `Sessions.LifeInv` | userspace/usb-displayd.c:549-555 | Publishing, running and reopening keep the stream sound, so it is at the start of every generation. |
| `Sessions.RereadNeverOlder` | userspace/usb-displayd.c:549-555 | Across reopenings nothing older than what any earlier generation read is read again, and the same update only if it was the last read of that generation, and then it is the first of the later one. For any clock. |
| `Stream.PublishAllExtends` | docs/architecture.md:32-34 | Any burst of allowed publishes keeps the hold, the held slot's bytes and every snapshot already taken, and the latest update's slot holds its snapshot. |
| `Stream.PublishedSlots` | docs/architecture.md:32-34 | A publish replaces exactly its own slot in the flat mapping and no byte of any other slot. |
| `Stream.PrefixAllowed` | docs/architecture.md:36-39 | Every prefix of an allowed burst of publishes is allowed. |
| `Damage.DamageRefinementIff` | userspace/usb-displayd.c:385-434 | For every run and every way to read frames as pictures: a backend that repaints only the damage shows the full submitted frame after every successful submit if and only if each new frame that directly follows an application frame is damaged wherever the two differ. |
| `Damage.DamageRefinement` | userspace/usb-displayd.c:369-422 | With a monotone clock it suffices that each application read is damaged wherever it differs from the read before it: no read is skipped once the hold is over, and the frame after INITIAL is damaged in full. |
| `Damage.ReadsCoveredImpliesCovered` | userspace/usb-displayd.c:385-407 | Damage relative to the previous read is damage relative to the frame on show. |
| `Damage.RoundFaithfulIff` | userspace/usb-displayd.c:385-434 | One round, from a screen that shows the application frame on entry: faithful if and only if the new frame covers its difference; then the screen again shows the frame on show. |
| `Damage.ScreenFollowsFrame` | userspace/usb-displayd.c:385-434 | While every new frame covers its difference, the repainted screen equals the application frame on show before every round. |
| `Damage.StartupShowsSplash` | userspace/usb-displayd.c:317-332 | The startup submit is damaged in full: the screen shows the splash whatever it showed before. |
| `Damage.PaintExact` | userspace/usb-displayd.c:397-407 | Repainting a rectangle gives the new picture if and only if the rectangle covers every difference. |
| `StreamDamage.PatientStreamFaithful` | docs/architecture.md:36-39 | Damage refinement from the stream: where every publish is damaged wherever it differs from the publish before, and none replaces an unread update, a backend that repaints only the damage shows the full submitted frame. |
| `StreamDamage.PatientReadsCovered` | docs/architecture.md:36-39 | On such a stream every read is damaged wherever it differs from the read before. |
| `LossyDamage.ReplacedUpdateLosesDamage` | docs/architecture.md:36-39 | A concrete run with a concrete conforming stream: every publish is damaged wherever it differs from the publish before, one is replaced before it is read, and a backend that trusts the damage keeps a stale pixel. |
| `NewestWins.FreshSubmitIff` | userspace/usb-displayd.c:369-422 | A round submits a new frame if and only if its poll stage succeeds, its sample has reached the deadline, the most recent accepted read is an application update, and every round from that read on was held back; the frame is that read's. Holds for any clock. |
| `NewestWins.NewFrameCarriesRead` | userspace/usb-displayd.c:388-410 | Whatever the clock does, a new frame has width, height, stride, format, source, timestamp and sequence of the most recent accepted read; it is damaged in full if it replaces an INITIAL frame and as the read says otherwise. |
| `NewestWins.ShownFrameCarriesRead` | userspace/usb-displayd.c:385-434 | With a monotone clock the same fields hold for every application frame submitted, refreshes included. |
| `NewestWins.StartupSubmit` | userspace/usb-displayd.c:317-343 | The startup submit is a full screen of XRGB8888 pixels over the splash buffer, INITIAL, sequence 0, damaged in full; if it cannot be made or fails there is no loop. |
| `NewestWins.PollResultExact` | userspace/usb-displayd.c:356-383 | Which poll and read outcomes fail, and with which negated errno; a complete update counts by `validate_update`. |
| `NewestWins.FailedPollEndsLoop` | userspace/usb-displayd.c:356-383 | A failing poll stage is the end of the loop: nothing more is called in its round, and its error is the result. |
| `NewestWins.PendingMeansWaiting` | userspace/usb-displayd.c:370-377 | `update_pending` is set exactly while some application read is the newest one and has been held back since, and `pending_update` is that read. |
| `NewestWins.SubmittedAtMostOnce` | userspace/usb-displayd.c:385-421 | No read is submitted as a new frame in two different rounds. |
| `NewestWins.DiagnosticNeverWaits` | userspace/usb-displayd.c:336-338 | On a diagnostic backend nothing waits: a round submits a new frame exactly when it accepts an application update. |
| `NewestWins.OnShowIsLatestRead` | userspace/usb-displayd.c:369-421 | With a monotone clock the application frame on show before a round is the most recent accepted read and has been submitted. |
| `NewestWins.SubmittedIsLatestRead` | userspace/usb-displayd.c:385-434 | Every application frame submitted, new or refreshed, carries the sequence of the most recent accepted read; so reading INITIAL cancels all earlier updates for good. |
| `Sessions.SubmittedSequencesRise` | userspace/usb-displayd.c:385-434 | With a conforming producer, the application sequences submitted in one generation never go down, and those of new frames rise strictly. |
| `Sessions.LifeSequencesRise` | userspace/usb-displayd.c:545-614 | Over a daemon's whole life, through any number of lost transports, the application sequences submitted never go down. |
| `Timing.StartupHold` | userspace/usb-displayd.c:333-338 | On a physical backend every submit of a round that samples the clock before the first submit's completion + 2 s is a refresh of the splash, however slow the first submit was. |
| `Timing.HoldEndsPromptly` | userspace/usb-displayd.c:349-352 | An update still waiting when the hold ends is submitted in the first round past the deadline, which samples the clock less than 33 ms + b + 2d after it, unless that round fails or reads INITIAL. |
| `Timing.ApplicationOnlyAfterHold` | userspace/usb-displayd.c:384-412 | With a monotone clock, application pixels are on show only past the deadline, and then nothing waits. |
| `Timing.SecondSubmitIff` | userspace/usb-displayd.c:384-434 | A round submits twice if and only if its new frame went through and the sample before it is at least 2 s later than the completion sample (physical backend). |
| `Timing.FailedClockSubmitsTwice` | userspace/usb-displayd.c:33-44 | A concrete run in which one failed clock reading, of the time a submit completes, makes one round submit twice. |
| `Timing.AtMostOneSubmit` | userspace/usb-displayd.c:384-434 | With a monotone clock a round submits at most once. |
| `Timing.RefreshNeverEarly` | userspace/usb-displayd.c:423-434 | A refresh starts no earlier than 33 ms (splash) or 2 s (application) after the last successful submit completed; the subtraction does not underflow. |
| `Timing.RefreshNeverOverdue` | userspace/usb-displayd.c:349-352 | On a physical backend every round samples the clock less than refresh interval + poll timeout + 2d after the last successful submit completed. |
| `Timing.DueRefreshSubmitted` | userspace/usb-displayd.c:423-434 | A round whose poll stage succeeds submits something, or the last submit is younger than one refresh interval. |
| `Timing.TickPerRound` | userspace/usb-displayd.c:435-441 | A capable backend is ticked exactly once in a round whose earlier stages succeed, as the round's last call, and not at all otherwise. |
| `Timing.RoundTakes` | userspace/usb-displayd.c:384-441 | The last clock sample of a round comes at most b + d after its first, since it submits at most once. |
| `Timing.TickGap` | userspace/usb-displayd.c:435-441 | A capable backend is ticked in every round that goes on, and the samples of consecutive ticks are at most 100 ms + b + 2d apart, hold or no hold. |
| `Timing.RoundStopsAtFailure` | userspace/usb-displayd.c:423-441 | The first failing submit or tick is the last call of its round. |
| `Timing.NothingAfterFailure` | userspace/usb-displayd.c:347-442 | Over a whole generation nothing follows the first failing submit or tick, and the loop ends with an error. |
| `Timing.SaneThroughout` | userspace/usb-displayd.c:347-442 | Whatever the clock does: a pending update is never INITIAL, the frame is the splash or an application frame in the mapping, and the deadline never changes. |
| `Dispatcher.RunLoop` | userspace/usb-displayd.c:273-446 | `run_loop` makes exactly the backend calls, in the order, of the stage functions, and returns their final result. |
| `Dispatcher.Loop.constructor` | userspace/usb-displayd.c:317-343 | Startup: splash frame, first submit, hold deadline. |
| `Dispatcher.Loop.Wait` | userspace/usb-displayd.c:348-352 | The poll timeout: 33 ms while a physical backend shows the splash, else 100 ms. |
| `Dispatcher.Loop.ReadStream` | userspace/usb-displayd.c:356-383 | Poll and read outcomes, validation, coalescing, and INITIAL. |
| `Dispatcher.Loop.SubmitPending` | userspace/usb-displayd.c:385-422 | Submit of a pending update, with full damage after the splash (`NewFrameCarriesRead` says what the frame carries). |
| `Dispatcher.Loop.RefreshIdle` | userspace/usb-displayd.c:423-434 | Refresh of the frame on show when its interval has passed. |
| `Dispatcher.Loop.Tick` | userspace/usb-displayd.c:435-441 | The tick of a capable backend. |
| `Dispatcher.Loop.Trip` | userspace/usb-displayd.c:347-442 | One trip round the loop, with a stop request before or after `poll`. |
| `Dispatcher.Loop.Run` | userspace/usb-displayd.c:347-442 | The loop over a whole script refines the stage functions in state and calls. |
| `Dispatcher.RoundsChain` | userspace/usb-displayd.c:347-442 | Consecutive rounds share a state and only the last may have failed. |
| `Abi.ValidateUpdateExact` | userspace/usb-displayd.c:251-271 | Accepts if and only if slot and dimensions are in range and stride * height fits the slot over the integers; otherwise -EOVERFLOW exactly for the size and -EPROTO for the rest. |
| `Abi.WordSizeIrrelevant` | userspace/usb-displayd.c:261-266 | 32-bit and 64-bit `size_t` give the same verdict: the second overflow check is redundant. |
| `Abi.AcceptedFrameInsideSlot` | userspace/usb-displayd.c:390-392 | An accepted frame lies inside its slot and overlaps no other. |
| `Abi.MappingSafeIffNoWrap` | userspace/usb-displayd.c:521-524 | For an accepted device, every accepted frame lies inside the mapping if and only if slot_count * slot_bytes < 2^32: the check in `main` uses a 32-bit product. |
| `Generations.Ownership` | userspace/usb-displayd.c:545-630 | For every run whatsoever, failing removals included: no backend context leaks or is closed twice, the stream is released before it is opened again, `run_loop` has backend, descriptor and mapping for as long as it works, and at exit nothing is held. |
| `Generations.TruthfulIff` | userspace/usb-displayd.c:545-630 | At every moment of a daemon's life a visible marker is true (open backend, live stream, current generation) and is up while `run_loop` works, if and only if the marker is turned off or no removal after a `run_loop` failed. |
| `Generations.DaemonLifetime` | userspace/usb-displayd.c:545-630 | Under that condition: owned and truthful after every event, and at exit nothing is held and no marker is left. |
| `Generations.GaplessGenerations` | userspace/usb-displayd.c:572-577 | For every run: the k-th successful publish carries generation k (modulo 2^64); failed attempts use no number. |
| `Reconnect.KeepsTrying` | userspace/usb-displayd.c:545-614 | The reconnect loop reconnects: without stop requests, failing publications and failing sleeps, the daemon opens the backend exactly once per attempt and pauses for the retry delay in between, after failed opens, failed reopenings and lost transports alike, until a `run_loop` still works or the script is used up. |
| `Reconnect.EndsOnlyIfDisturbed` | userspace/usb-displayd.c:545-614 | Over all scripts: a daemon that is over met a stop request, a failing publication or a failing sleep in the last attempt it made. |
| `Reconnect.StopRequestEnds` | userspace/usb-displayd.c:545-614 | A stop request in a generation that returns ends the daemon as a success. |
| `Reconnect.RetriesCounted` | userspace/usb-displayd.c:569-569 | Every failed open in a row is counted as a retry. |
| `Readiness.PublishesOwnClaims` | userspace/usb-displayd.c:577-580 | Everything the daemon ever publishes carries its own pid, its backend's name and whether that backend is physical. |
| `Readiness.ShownClaim` | userspace/usb-displayd.c:174-179 | Every marker ever visible is the text of such a claim. |
| `Readiness.PhysicalReadyIsTrue` | tools/usbdisplay-check:198-253 | Whenever `usbdisplay-check` reports a physical display on a marker the daemon showed at any time, the daemon's backend is physical, whatever it is called. |
| `Generations.MarkerHistory` | userspace/usb-displayd.c:571-618 | For every whole life, the last removal included: everything ever visible at the marker's path is nothing or a complete marker, there are as many markers as publications, the k-th is that of generation k, and a marker vanishes only after it was there. |
| `Generations.MarkerAlternates` | userspace/usb-displayd.c:571-618 | The marker goes up and down once per generation if and only if none takes the place of another; in particular if no removal after a `run_loop` failed. |
| `Generations.FailedUnlinkLies` | userspace/usb-displayd.c:200-205 | A concrete script: where publishing works and removing does not, a lost transport leaves the marker up while its backend is closed. |
| `Generations.AcquireWatched` | userspace/usb-displayd.c:546-570 | Opening the backend and reopening the stream keeps the rules, whichever step fails. |
| `Generations.ReopenWatched` | userspace/usb-displayd.c:208-249 | `reopen_frame_stream` obeys the single-consumer rule in every outcome and leaves exactly the handles it reports. |
| `Generations.RunWatched` | userspace/usb-displayd.c:545-614 | Every run of the supervisor, from any state in step with the observer, is accepted event by event and ends in step. |
| `Generations.RunTruthIff` | userspace/usb-displayd.c:545-614 | The truth condition for a run from any such state without a marker. |
| `Generations.TruthsThroughout` | userspace/usb-displayd.c:545-630 | Truth after every event is truth after every prefix of the log. |
| `Generations.NumbersGapless` | userspace/usb-displayd.c:573-577 | In an accepted log the publications are numbered consecutively. |
| `Supervisor.Daemon.Live` | userspace/usb-displayd.c:545-639 | The daemon from its first backend open to its exit makes exactly the calls of `Lifetime`, shows exactly what `LifetimeSeen` says, and succeeds if and only if it was stopped. |
| `Supervisor.Daemon.Supervise` | userspace/usb-displayd.c:545-614 | The reconnect loop refines the trip functions in state, marker history and calls. |
| `Supervisor.Daemon.Trip` | userspace/usb-displayd.c:545-614 | One attempt: backend, stream, marker, loop, and the retry or the next attempt. |
| `Supervisor.Daemon.AcquireTransport` | userspace/usb-displayd.c:546-555 | Backend open, then stream reopen after a lost transport. |
| `Supervisor.Daemon.RetryLater` | userspace/usb-displayd.c:556-570 | A failed attempt closes a left-over context, counts a retry and sleeps. |
| `Supervisor.Daemon.RunGeneration` | userspace/usb-displayd.c:571-613 | Numbering, publication of the daemon's own claim (`PublishesOwnClaims`) and the run; a failed publication closes the backend and ends the loop. |
| `Supervisor.Daemon.ServeGeneration` | userspace/usb-displayd.c:597-612 | Runs the dispatcher and handles its return. |
| `Supervisor.Daemon.LeaveLoop` | userspace/usb-displayd.c:599-612 | Removes the marker before the backend is closed; after a lost transport it pauses and the daemon goes on (`KeepsTrying`). |
| `Supervisor.Daemon.NumberGeneration` | userspace/usb-displayd.c:572-577 | Counts the reopening once and derives the generation from it. |
| `Supervisor.Daemon.CleanUp` | userspace/usb-displayd.c:616-638 | Marker, mapping and descriptor are gone at the end; exit is a success if and only if stopped or nothing failed. |
| `Supervisor.ReopenFrameStream` | userspace/usb-displayd.c:208-249 | Success installs both new handles; failure leaves both old ones alone (munmap failed) or neither. |
| `Supervisor.SleepConserves` | userspace/usb-displayd.c:108-122 | Interrupted sleeps resume: unless stopped or failed, exactly the delay is slept, and never more. |
| `Supervisor.SleepMilliseconds` | userspace/usb-displayd.c:108-122 | The loop computes that, and splits milliseconds into seconds and nanoseconds without loss. |
| `Checker.MarkerRoundTripIff` | tools/usbdisplay-check:200-207 | For every claim: the shell reader gets back exactly the published fields if and only if the backend name has no line end and does not end with its only `=`. |
| `Checker.AnyNameReads` | tools/usbdisplay-check:200-207 | For every name: the reader's fields are what the name's own lines make of the published pid and generation, with the published physical bit. |
| `Checker.VerdictIff` | tools/usbdisplay-check:209-218 | For names without line ends: valid if and only if the name as read is a non-empty word over [0-9A-Za-z._+-] and pid and generation are positive 63-bit numbers; and a valid verdict is about other than the published fields exactly for such a word followed by a single `=`. |
| `Checker.LegalMarker` | tools/usbdisplay-check:198-219 | A legal name is read back with all its fields and found valid if and only if the numbers are in range. |
| `Checker.ForgedGeneration` | tools/usbdisplay-check:198-219 | A family of names with a line end: the reader takes the generation from the name and still finds the marker valid. |
| `Checker.ForgedIsPublished` | userspace/usb-displayd.c:174-184 | A member of that family that fits the marker and is published. |
| `Checker.ParseLine` | tools/usbdisplay-check:200-207 | Reading one printed line assigns its value, whatever follows. |
| `Checker.MarkerInjective` | userspace/usb-displayd.c:174-179 | Different claims with such names have different marker texts. |
| `Checker.PhysicalReadyOnlyIf` | tools/usbdisplay-check:234-253 | For every name: physical-ready with a daemon's marker implies a physical backend, module, both devices, a live daemon and the adapter. |
| `Checker.PhysicalReadyIff` | tools/usbdisplay-check:234-253 | For names without line ends that is exact, together with a valid name and numbers in range. |
| `Checker.ReadMarker` | tools/usbdisplay-check:200-207 | The `while read` loop computes the fold over complete lines. |
| `Checker.CollectStatus` | tools/usbdisplay-check:198-253 | The fields come from the marker if there is one; the reason is the first thing missing in the documented order; ready if and only if nothing is missing. |
| `Checker.VerdictTable` | tools/usbdisplay-check:234-253 | Each verdict by its plain condition, diagnostic backends allowed or not. |
| `Checker.NameAlphabet` | tools/usbdisplay-check:209-212 | Which characters a name may have. |
| `Checker.VerdictUnique` | tools/usbdisplay-check:234-253 | There is exactly one such reason. |
| `Checker.WaitForReady` | tools/usbdisplay-check:256-263 | Looks up to wait_seconds + 1 times, stops at the first ready look, and is ready if and only if one of the looks is. |
| `Marker.WriteAll` | userspace/usb-displayd.c:124-146 | Success if and only if the file is the whole buffer; on failure it is a proper prefix. |
| `Marker.WriteAllFailsIff` | userspace/usb-displayd.c:130-143 | `write_all` fails if and only if some call errs or writes nothing before everything is written. |
| `Marker.PublishSucceedsIff` | userspace/usb-displayd.c:160-190 | A publication succeeds exactly when the temporary path stays below 320 characters, the text below 256, and every call works. |
| `Marker.Directory.Publish` | userspace/usb-displayd.c:149-198 | Success replaces the marker by the complete text in one visible step; any failure (path or text too long included) leaves it alone, and no temporary file if `unlink` works. |
| `Marker.Directory.Remove` | userspace/usb-displayd.c:200-205 | Removes the marker, if it is up, where `unlink` works. |
| `Bytes.ValueOfDecimal` | userspace/usb-displayd.c:174-179 | A printed decimal has the value it was printed from. |
| `ReplayTheorems.ReplayExact` | tools/actions-micro-replay.c:287-333 | Readable file, nothing interrupting: either mode processes exactly the longest prefix of acceptable records within the time limit; the result is 0 if the announced count is reached or the next record is good but late, else that record's error; a live run has sent exactly the prefix's reports in order, endpoint 3 to the first interface and endpoint 4 to the second. |
| `ReplayTheorems.EveryReportRouted` | tools/actions-micro-replay.c:297-323 | In every run, read errors and interruptions included: the i-th report sent is that of the i-th record; to interface 0 go only reports of endpoint 3 that start with byte 2, to interface 1 only those of endpoint 4 that start with byte 1, and nowhere else any. |
| `ReplayTheorems.AcceptableIff` | tools/actions-micro-replay.c:297-312 | Exactly which records are acceptable, by endpoint, report id and the first two bytes. |
| `ReplayTheorems.RecordLayout` | tools/actions-micro-replay.c:29-35 | Where the fields of a record stand in the file, byte by byte. |
| `ReplayTheorems.AcceptedHeaderIff` | tools/actions-micro-replay.c:259-267 | Exactly which headers are accepted, by their bytes. |
| `ReplayTheorems.ErrorIsReported` | tools/actions-micro-replay.c:289-323 | A replay that ends with an error does so at the record after the processed ones, with that record's error, or with that of its sleep or else its write. |
| `ReplayTheorems.ModesAgree` | tools/actions-micro-replay.c:317-333 | Dry run and live run of a file agree on result, processed, commands, video and duration, however differently they read it; the dry run sends nothing, the live one the processed reports. |
| `ReplayTheorems.LiveSendsInOrder` | tools/actions-micro-replay.c:313-332 | Whatever sleeps, writes and stop requests do, a live run sends a prefix of the playable records in order and counts all of them except at most the last. |
| `ReplayTheorems.LiveNeverEarly` | tools/actions-micro-replay.c:317-323 | Whatever cuts sleeps and writes short, every report of a live run leaves no earlier than its record is due by the tool's clock. |
| `ReplayTheorems.CountsAddUp` | tools/actions-micro-replay.c:324-332 | In every run processed = commands + video. |
| `ReplayTheorems.BadHeaderRefused` | tools/actions-micro-replay.c:259-267 | Without an acceptable header nothing is processed or sent; -EIO for a short file, -EPROTO otherwise. |
| `ReplayTheorems.ReplayIsPlay` | tools/actions-micro-replay.c:287-333 | The byte-level replay of a readable file is the record-level loop over its contents. |
| `ReplayTheorems.RunIsPlay` | tools/actions-micro-replay.c:287-333 | The same for the record loop from any record boundary and any source of records, under arbitrary short reads. |
| `ReplayTheorems.FileReads` | tools/actions-micro-replay.c:289-312 | Reading a file record by record delivers its contents, however short the single reads are. |
| `ReplayTheorems.ContainerRoundTrip` | tools/actions-micro-replay.c:23-35 | Parsing a serialised record list, with any trailing bytes, returns the list. |
| `ReplayTheorems.ReplayReencodes` | tools/actions-micro-replay.c:259-312 | However a replay ends, re-serialising the header and the processed records reproduces the beginning of the file byte for byte, `reserved` included; when all announced records were processed, that is everything up to the position where the tool stopped reading. |
| `ReplayTheorems.ContainerReencodes` | tools/actions-micro-replay.c:259-312 | The same for a file read as a value. |
| `ReplayTheorems.SerialisedIsReplayed` | tools/actions-micro-replay.c:259-333 | Any list of acceptable records, serialised and followed by anything, is replayed in full, and live sends exactly its reports. |
| `ReplayTheorems.RecordRoundTrip` | tools/actions-micro-replay.c:29-35 | A stored record reads back, wherever it stands in a file. |
| `ReplayTheorems.HeadReencodes` | tools/actions-micro-replay.c:29-35 | Every 16-byte record head is reproduced by decoding and encoding it. |
| `ReplayTheorems.HeaderRoundTrip` | tools/actions-micro-replay.c:23-27 | A written header is accepted and announces the number of records. |
| `Replay.ShortReadsIrrelevant` | tools/actions-micro-replay.c:53-70 | Without a read error `read_exact` succeeds if and only if the bytes exist, however short the single reads are. |
| `Replay.Stream.ReadExact` | tools/actions-micro-replay.c:53-70 | Success delivers exactly the next bytes; failure is -EIO. |
| `Replay.FetchRecord` | tools/actions-micro-replay.c:289-312 | Reading and validating one record. |
| `Replay.Replayer.Next` | tools/actions-micro-replay.c:287-333 | One trip round the record loop, a stop request at its head included. |
| `Replay.Replayer.Hand` | tools/actions-micro-replay.c:317-332 | For one record within the limit: sleep until it is due, write it to its interface (`EveryReportRouted`), and count it, with a stop request or a failure at any point. |
| `Replay.Replayer.Loop` | tools/actions-micro-replay.c:287-333 | The record loop refines its step function. |
| `Replay.Replayer.Replay` | tools/actions-micro-replay.c:259-333 | Header check, interfaces in live mode, records. |
| `Replay.SleepUntil` | tools/actions-micro-replay.c:85-103 | Success without a stop request means that the last clock sample reached the target. |
| `Replay.SleepReaches` | tools/actions-micro-replay.c:85-103 | That, and: without errors and stop requests it always succeeds, however often the sleeps are cut short. |
| `Replay.WriteReport` | tools/actions-micro-replay.c:141-157 | The first write that is not interrupted decides, and the result is success if and only if it transferred a whole report. |
| `Bytes.DecodeEncode` | tools/actions-micro-replay.c:23-35 | Little-endian words read back. |
| `Bytes.EncodeDecode` | tools/actions-micro-replay.c:23-35 | Every byte string is the encoding of its word. |
| `Bytes.LittleEndian` | tools/actions-micro-replay.c:23-35 | Which byte counts how much in a word. |
| `EndToEnd.DestinationShowsUpdate` | userspace/usb-displayd.c:347-434 | Dispatcher, stream and PPM sink together, told from the application's side, for any clock and any producer: an image reader finds at the destination the most recently processed update, with its width and height, and pixel (x, y) in the colour that its format gives to the bytes published under its sequence at y * stride + x * bytes per pixel. |
| `EndToEnd.SplashIsShown` | userspace/usb-displayd.c:317-343 | Before the first processed update it finds the splash, in the same sense. |
| `EndToEnd.DestinationFollowsApplication` | userspace/usb-displayd.c:347-434 | The file behind that, each byte read at an instant of its own during the submit; a failed submit changes nothing. |
| `EndToEnd.ReadIsSnapshot` | backends/ppm/ppm_backend.c:66-84 | Whenever the single bytes of a frame in the held slot are read during a submit, together they are the published snapshot. |
| `EndToEnd.SplashUntilFirstUpdate` | userspace/usb-displayd.c:317-343 | Before the first processed update the destination is the complete image of the splash. |
| `EndToEnd.ProcessedUnlessFailed` | userspace/usb-displayd.c:385-422 | On a diagnostic backend a round that leaves the loop running has processed the application update it read, if any. |
| `EndToEnd.FreshShowsSnapshot` | backends/ppm/ppm_backend.c:89-123 | A round processes an update if and only if it read an application update and the sink succeeded; the image is that of the published snapshot. |
| `EndToEnd.SubmitsReadable` | backends/ppm/ppm_backend.c:66-68 | While strides cover their rows, the sink never reads past the end of a frame the dispatcher hands over. |
| `EndToEnd.DriveSink` | backends/ppm/ppm_backend.c:89-123 | Driving the sink with the frames of a run leaves the predicted destination, and only complete images are ever visible there. |
| `Ppm.Sink.Submit` | backends/ppm/ppm_backend.c:89-123 | Success leaves a complete P6 image in one visible step, which an independent reader finds to have exactly the frame's width, height and body; any failure leaves the old content. For every frame, empty ones included. |
| `Ppm.FileIsP6` | backends/ppm/ppm_backend.c:100-105 | That reading of the file, with a body of 3 * width * height bytes. |
| `P6.ReadsAssembled` | backends/ppm/ppm_backend.c:100-101 | The reader takes apart what is put together from a magic, two numbers, the maximum and a body. |
| `Ppm.SubmitSucceedsIff` | backends/ppm/ppm_backend.c:96-120 | A submit succeeds exactly when the format is known, every step works and the stream takes every pixel. |
| `Ppm.PixelColour` | backends/ppm/ppm_backend.c:69-76 | Decoding gives each pixel the colour of its bytes: blue, green, red, or 5, 6 and 5 bits of two bytes, scaled. |
| `Ppm.WritePixels` | backends/ppm/ppm_backend.c:56-87 | The nested loops write the dense body, or fail with -ENOTSUP or -EIO exactly when the format or the stream demands it. |
| `Ppm.WriteRow` | backends/ppm/ppm_backend.c:68-83 | One row, pixel by pixel. |
| `Ppm.BodyLayout` | backends/ppm/ppm_backend.c:66-84 | The three bytes of pixel (x, y) stand at its offset in the body. |
| `Ppm.BodyDense` | backends/ppm/ppm_backend.c:66-84 | That offset is 3 * (y * width + x), and the body has exactly 3 * width * height bytes. |
| `Ppm.ReadEndExact` | backends/ppm/ppm_backend.c:67-75 | The traversal stays within stride * height bytes if and only if the stride covers a row. |
| `Ppm.PixelInBuffer` | backends/ppm/ppm_backend.c:67-75 | No pixel is read past the end of the traversal. |
| `Ppm.PaddingIrrelevant` | backends/ppm/ppm_backend.c:66-84 | Buffers that agree on the visible bytes give the same body, whatever their padding. |
| `TestPattern.PackExpand` | tools/fb-test-pattern.c:32-39 | Packing undoes the expansion of every RGB565 pixel. |
| `TestPattern.ImageSurvivesPpm` | backends/ppm/ppm_backend.c:49-87 | Repacking the body the sink writes for any RGB565 frame gives back every visible pixel. |
| `TestPattern.PackJoin` | tools/fb-test-pattern.c:32-39 | Packing keeps the top 5, 6 and 5 bits of the three channels. |
| `TestPattern.FillPattern` | tools/fb-test-pattern.c:73-86 | For any line length: every byte is what the last pixel to cover it left there, or as it was. |
| `TestPattern.PatternShape` | tools/fb-test-pattern.c:14-30 | The pattern: eight bars of equal width in their order, and below three quarters of the height a checkerboard of 32 by 32 squares. |
| `TestPattern.ScannedPainted` | tools/fb-test-pattern.c:73-86 | Where the line length covers a row, that is every position's colour in place and no byte outside the visible pixels touched. |
| `TestPattern.StorePixel` | tools/fb-test-pattern.c:77-84 | One pixel is stored and nothing else changes. |
| `TestPattern.PixelsApart` | tools/fb-test-pattern.c:77-84 | With a stride that covers the rows, pixels do not overlap. |
| `TestPattern.PatternThroughPpm` | tools/fb-test-pattern.c:14-30 | A framebuffer holding the pattern, sent through the PPM sink, shows at each position the pattern's colour, exact at 32 bits and quantised at 16. |

## Left out

- ReplayTheorems.ReplayExact: stated for a stream without read errors and for runs without stop requests or failing
  sleeps and writes, because those are the conditions under which the tool promises a full replay; the interrupted
  runs are `LiveSendsInOrder` and `CountsAddUp`.
- ReplayTheorems.ModesAgree: opening and verifying the two HID nodes succeeds in the live run.
- Timing.TickGap: bounds the samples handed to the ticks, not the duration of the ticks themselves, which `d`
  includes.
- Timing.HoldEndsPromptly: bounds the clock sample that precedes the submit, not the submit's own duration.
- EndToEnd.DestinationShowsUpdate: the sink is diagnostic and has no tick, as the PPM backend is.
- Splash rendering (`userspace/splash.c`): the splash is a given full-size buffer; its allocation and rendering are
  one result code.
- What precedes the supervisor's loop in `main`: arguments, `dlopen` and the backend ABI checks, the first stream
  open and the ioctl beyond its size check. The model starts with the stream open and mapped.
- The kernel driver: only its stream contract is modelled (free choice of a slot that is not held, rising sequences,
  hold on read, one repeated read after a reopening). Sequence numbers do not wrap.
- Memory ordering and caches between producer and consumer: publishes are atomic steps, but may fall anywhere inside
  a submit.
- Signal delivery: a stop request is seen at the points where the code looks at it, as a script entry.
- Logging, usage text, the JSON output of `usbdisplay-check` and its sysfs discovery; what it finds is an input of
  the decision chain.
- Shell field splitting beyond a key, its first `=` and one trailing `=`; NUL bytes in the marker.
- Floating point in the replay tool: times are integer microseconds, and when a record is due (its timestamp divided
  by `--speed`, after the start) is an arbitrary function of its timestamp.
- `verify_hidraw`: one result code together with opening the HID nodes.
- The content of the sink's and the marker's temporary files after a failed step, and file permissions.
- The physical actions-micro backend, the null backend and the examples: device protocol and UI code.
