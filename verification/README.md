# HPA300 firmware: model and proofs

This project models the control core of the HPA300 air-purifier firmware in Dafny and proves
what it keeps: the fan actor and its maintenance handshake, the 74HC238 driver pin by pin, the
records that survive a reset, the OTA pipeline from the HTTP receive loop to the flash slot, the
touch recogniser, the captive DNS responder, the setup key sequence and the probation of a new
image. `dafny verify dfyconfig.toml` checks all of it.

## How it is laid out

Code that changes things in place is a class or a method over arrays, proved against functions on
values (`Hc238Driver`, `FanTransition`, `FanController`, `Diagnostics`, `OtaUpdate`, `OtaWorker`,
`Upload`, `TouchGesture`, `DnsServer`, `SetupSequence`, `Probation`). Code whose point is
interleaving is a transition system with one step per access to something shared (`FanControl`,
`Seqlock`, `Rendezvous`, `OtaSafety`); the theorems about it are over every run, with any number
of submitters, quiescers, readers or callers.

| file | what it holds |
|---|---|
| `Esp` | 32-bit words, wrapped clocks, error codes |
| `Hc238`, `Hc238Arming`, `Hc238Driver` | decoder, pads and driver writes as values; which writes could switch it on; the driver itself |
| `FanTransition` | the disable/address/enable transaction, the speed map, the output trace |
| `FanPolicy` | speeds, elapsed ticks, the command numbers |
| `FanControl` | the system of the actor, submitters, quiescers, resets |
| `Quiesce`, `FanRefinement`, `FanStatus`, `FaultLatch`, `ShutoffTimer`, `CommandBook` | theorems over its runs |
| `Controls` | what sequences of interpreted commands do to speed and timer; a press that finds the one-slot mailbox full replaces the command waiting there, so fewer may be interpreted than pressed |
| `FanExecutions`, `FanSolo`, `FanRuns` | executions and reached states; an undisturbed boot and cycle; two runs from power-on |
| `FanController` | the actor and its callers as code, tied to reached states of the system; the first press after power-on |
| `Seqlock` | the published snapshot, load by load and store by store |
| `FaultRecord`, `Breadcrumbs`, `RestartMarker`, `Diagnostics` | RTC memory, store by store |
| `OtaUpdate`, `OtaWorker`, `Upload` | flash session, worker, upload handler |
| `Rendezvous` | any number of callers of the worker, and the buffer pool |
| `OtaSafety`, `OtaRace` | the worker's flash calls against the fan, over all runs; one run that breaks the rule |
| `TouchGesture`, `DnsServer`, `SetupSequence`, `Probation` | four self-contained machines |

## Where the code does less than it says

Five places, each with a theorem that says exactly when it is otherwise.

- The safety model in the repository's README says OTA writes require an OFF acknowledgement
  first. For the confirmation or rollback of a pending image the acknowledgement can be taken
  away again: the trailing `fan_control_end_maintenance` of an HTTP handler (main/network.c:825,
  main/network.c:987) can fall between the worker's quiesce and its flash call. `OtaRace` has the
  run, from power-on and with no hardware failing; `OtaSafety.FlashCallsAreQuiesced` says the flag
  is set at such a call exactly if no handler has done so, and that every other flash call is safe.
  That is a flag lost too early; `OtaSafety.FlagDoesNotLeak` says that it stays set too long only
  after a rollback that failed.
- It also says only a cold power cycle clears a latched fan fault. A warm reset inside a second
  latching loses the first, since the magic is zeroed before anything else; `FanRuns` has the run,
  from power-on. `FaultLatch` proves that the next boot reports the fault in every other case, and
  that nothing but a power-on reset and that first store takes it out of the record.
- An upload during probation is refused by `esp_ota_begin`, but only after the whole other slot -
  the image a rollback would return to - has been erased (main/ota_update.c:125-137).
  `OtaUpdate.RefusedButErased` and `Upload.UploadOnce` are such calls. `OtaUpdate.Session.Begin`
  says for every call with working flash that the slot survives exactly if a check before the first
  flash call refuses or it was erased already, and `Upload.Handler.Post` the same for a whole
  upload: with an acknowledging fan and a valid header it ends as 409 Conflict over an erased slot.
- After the event numbered 2^32 - 1 the breadcrumb ring reports no latest event and skips a place.
- The 4, 5, 4, 5 matcher misses a sequence whose first key it took for the third of an older one:
  exactly if an odd number of 4, 5 pairs in time leads up to it.

The comment at components/dns_server/dns_server.c:97 calls the reply flags "recursion
unavailable"; 0x8180 has the recursion-available bit of section 4.1.1 of RFC 1035 set. The model
follows the code.

## Assumptions

- Sections between `portENTER_CRITICAL` and `portEXIT_CRITICAL` are one step: the ESP32-S2 has one
  core. Memory is sequentially consistent.
- A GPIO write that fails leaves its pad as it was; a decoder input that no pad drives is low.
- A warm reset may keep the pads, clear them or anything in between, as long as that selects no
  other output; a power-on reset leaves none selected.
- The tick rate is ESP-IDF's default of 100 Hz. Clocks are unbounded natural numbers, and the
  code sees them modulo 2^32.
- `esp_ota_begin` refuses while the running image is pending verification. A failing erase or
  program call may leave anything in the bytes it was to change; a failing
  `esp_ota_set_boot_partition` or `esp_ota_mark_app_valid_cancel_rollback` changes nothing.
- `diagnostics_init` is not itself cut by a reset, except where `RestartMarker` says so.
- In `FanControl`, the snapshot that `submit_command` checks is any one published so far;
  `Seqlock` proves that it is one whole published snapshot.
- In `OtaSafety`, no provisioning request overlaps with the OTA worker.

## Model

| member | source | states |
|---|---|---|
| Esp.SinceIsTrueTime | components/fan_policy/fan_policy.c:23-26 | a wrapped tick difference never overstates true time and is exact within one wrap |
| FanPolicy.NthClosedForm | components/fan_policy/fan_policy.c:28-32 | the n-th assigned number is (n-1) mod (2^32-1) + 1, never 0 |
| FanPolicy.NthDistinct | components/fan_policy/fan_policy.c:28-32 | numbers less than a full turn apart differ |
| Hc238.AcceptedMeansControllable | components/hc238/hc238.c:44-56 | the validator accepts exactly the wirings with well-formed, distinct pins that software can both switch on and switch off |
| Hc238.DisableIsCalm | components/hc238/hc238.c:88-104 | disabling, complete or cut short by a failed write, only ever switches the decoder off |
| Hc238.EnableMakes | components/hc238/hc238.c:88-104 | the decoder comes on with the last write of a successful enabling and with no other |
| Hc238.PutAddressIsCalm | components/hc238/hc238.c:147-176 | address writes under a disabled decoder show nothing, and set exactly the wanted bits if they succeed |
| Hc238.InitOnlySwitchesOff | components/hc238/hc238.c:107-137 | from any pad state initialisation only switches off, moves address pins only once off, and opens the driver only if every write succeeded |
| Hc238.InitParksEverything | components/hc238/hc238.c:107-137 | once initialised, every controlled input is driven, the enables inactive and the address inputs low |
| Hc238Arming.InitArmsNothing | components/hc238/hc238.c:107-137 | no write of initialisation sets an enable to its active level |
| FanTransition.TurningOffArmsNothing | components/fan_transition_core/fan_transition_core.c:17-27 | no write of turning off does either |
| Hc238Driver.Driver.ValidateConfig | components/hc238/hc238.c:33-77 | the checks and nested loops accept exactly the valid configurations |
| Hc238Driver.Driver.SetEnableLevels | components/hc238/hc238.c:88-104 | the write sequence of the specification, whichever writes fail |
| Hc238Driver.Driver.ConfigureOutput | components/hc238/hc238.c:79-86 | latch first, direction second, and nothing after a failure |
| Hc238Driver.Driver.Init | components/hc238/hc238.c:107-137 | the pads, the driver state and the result are those of the specification |
| Hc238Driver.Driver.Enable | components/hc238/hc238.c:139-143 | refused before initialisation without a write, else the enable writes |
| Hc238Driver.Driver.SetAddress | components/hc238/hc238.c:147-176 | refused before any write when closed, out of range or unreachable, each with its own error, else the address writes in order |
| FanTransition.TransitionTransacts | components/fan_transition_core/fan_transition_core.c:3-48 | for every accepted wiring and every pattern of failed writes: new output on success; after an error none, or the old one only if the phase is DISABLE |
| FanTransition.TransitionFailsSafely | components/fan_transition_core/fan_transition_core.c:17-41 | a transition that fails on an open driver ends with an attempt to disable, and leaves the decoder disarmed with no output selected unless two of its own writes failed |
| FanTransition.PhaseNamesTheFailure | components/fan_transition_core/fan_transition_core.c:14-46 | the error is ESP_FAIL and the phase says what the first failing write was doing: setting an enable inactive, an address input, or an enable active |
| FanTransition.TransitionWorks | components/fan_transition_core/fan_transition_core.c:3-48 | nothing but a failing write or an output the wiring cannot select makes a transition on an open driver fail |
| FanTransition.TransitionTrace | components/fan_transition_core/fan_transition_core.c:3-48 | write by write the output reads old\*, none\*, new\*, and address pins move only while none is selected |
| FanTransition.TransactionRises | components/fan_transition_core/fan_transition_core.c:17-47 | an output comes on exactly once in a completed transition to a speed, and never otherwise |
| FanTransition.SpeedsAreDistinctAndReachable | main/fan_select.c:8-16 | every speed's output is reachable on this board, different speeds select different outputs, and the two wired address lines carry the speed less one |
| FanTransition.ExecuteOn | components/fan_transition_core/fan_transition_core.c:3-48 | the transaction on the real driver: its output on success; after an error one is selected only if two of its writes failed; a bad address touches nothing |
| FanTransition.TransitionOn | main/fan_select.c:55-79 | an invalid speed is refused untouched, any other becomes its transaction and on success selects its output |
| FaultRecord.LatchIsCrashConsistent | main/diagnostics.c:319-329 | after any number of stores the record decodes to the old fault, to none or to the new one: old before the first, new after the last |
| FaultRecord.OneWrongWordIsSeen | main/diagnostics.c:115-125 | a whole record with any one of its five words changed holds no fault |
| FaultRecord.LatchedWords | main/diagnostics.c:319-329 | the five words a complete latching leaves |
| FanRefinement.TransitionMoves | main/fan_select.c:55-79 | what one transition means for the actor: where the output ends, how often it came on, and that after an error it is off unless two writes failed |
| FanRefinement.CyclesEndRefined | main/fan_control.c:249-339 | at the end of every cycle without a fault the selected output is the map of the applied speed, desired equals applied and accepted equals applied sequence |
| FanRefinement.FaultIsOff | main/fan_control.c:300-313 | past the boot, a fan with a latched fault is off down to the pins unless two pin writes of this boot failed, in the disable phase |
| FanRefinement.PendingOnlyAfterFault | main/fan_control.c:315-335 | every published snapshot has desired equal to applied and is pending exactly if the last accepted command is not settled, which takes a fault; with a fault both are OFF and no timer is active |
| FanRefinement.EdgesAreCompletions | main/fan_control.c:281-308 | enable edges since boot equal completed transitions to a speed |
| FanRefinement.AcknowledgedIsOff | main/fan_control.c:447-452 | whoever sees the acknowledgement sees the fan off down to the pins and wanted off, and under the flag no waiting command |
| FanRefinement.QuiescedDecoderIsOff | main/fan_control.c:432-453 | while a quiescer holds, no output is selected and no pin is being written |
| Quiesce.QuiesceIsSafe | main/fan_control.c:259-334 | once quiesce has returned ESP_OK and while the flag has stayed set: applied and desired off, mailbox empty, no transition - though the bit it saw may be stale |
| FanRuns.StaleAckCanAnswer | main/fan_control.c:432-453 | the bit can be stale: in a run from power-on a second quiesce sets the flag and returns ESP_OK with no actor step since before it was set |
| Quiesce.NoReplay | main/fan_control.c:432-453 | a command taken after the flag was set was submitted after the flag was next cleared |
| Quiesce.FirstFullCycleAnswers | main/fan_control.c:259-334 | under a set flag the first full cycle leaves the bit set or a fault latched |
| Quiesce.FaultNeverAnswers | main/fan_control.c:332-334 | with a fault the bit is clear and quiesce cannot return ESP_OK |
| FanStatus.SnapshotsAreTruthful | main/fan_control.c:259-335 | a published snapshot reports a fault exactly as state FAULT_LATCHED, maintenance exactly as state MAINTENANCE, with the fan then wanted off on its behalf, and without a fault as many transitions completed as attempted |
| FanStatus.RecordMatchesReport | main/fan_control.c:211-216 | the RTC record holds exactly the fault the actor reports, in this boot and after every reset |
| FanStatus.PinsMoveOnlyToChangeSpeed | main/fan_control.c:281-313 | a request for the applied speed, and any request after a fault, performs no GPIO write |
| FanStatus.FailedBootSuspends | main/fan_control.c:218-246 | after a boot whose fan_init, OFF transition or watchdog registration failed the actor stays suspended and moves no pin until the next reset |
| Controls.NormalPressesCycle | components/fan_policy/fan_policy.c:8-16 | n interpreted key 1 commands from off select speed n mod 4 |
| Controls.NormalPressesFromTop | components/fan_policy/fan_policy.c:8-16 | from the top speed n interpreted key 1 commands select speed (n-1) mod 4, off first |
| Controls.TurboPressesToggle | components/fan_policy/fan_policy.c:18-21 | interpreted key 2 commands alternate between the top speed and off, from any speed |
| Controls.TimerPressesCycle | main/fan_control.c:134-142 | n interpreted key 6 commands with the fan on select 2, 4, 8 hours or always-on in turn and restart the countdown |
| Controls.TimerPressesOff | main/fan_control.c:134-142 | with the fan off any number of interpreted key 6 commands only settle their own numbers |
| Controls.SpeedChangesKeepTimer | main/fan_control.c:121-155 | changes between active speeds preserve the running timer |
| Controls.OffIsUntimed | main/fan_control.c:152-154 | after any commands a fan that is wanted off has no timer |
| Controls.RestCancelsTimer | main/controller.c:236-239 | after a request through the REST interface no timer is active until key 6 starts one |
| Controls.SourceIsLastSender | main/fan_control.c:121-155 | the source shown is that of the last interpreted speed command, whatever key 6 did since |
| Controls.EightHoursFitExactly | main/fan_control.c:163-164 | the durations are exactly two, four and eight hours of ticks; the 32-bit conversion of eight hours is right exactly up to a tick rate of 149 Hz |
| FaultLatch.LatchedNeverSwitchesOn | main/fan_control.c:211-246 | with a latch in force, in this boot or a later one, no pin write begun or under way sets an enable to its active level, whether or not it would succeed, and no step selects an output |
| FaultLatch.LatchedBootStaysOff | main/fan_control.c:211-246 | while a latch is in force, through any number of warm resets that keep the pads or clear them, nothing is selected but what was when it came into force, and nothing once that is off |
| FaultLatch.LatchedBootTurnsOff | main/fan_control.c:211-246 | in a boot that begins with a latch in force the decoder is off from fan_init on, if that could open the driver, whatever the reset left on the pads |
| FaultLatch.LatchEndsOnlyByPowerOnOrTear | main/diagnostics.c:193-197 | after a reset with a latch in force the actor's first step finds the fault exactly if it was no power-on reset and did not fall inside another latching |
| FaultLatch.FaultOutlivesResets | main/fan_control.c:211-216 | once a latching has returned, through any number of warm resets outside a latching the record holds a fault and the actor reports one |
| FaultLatch.RecordIsLostExactly | main/diagnostics.c:319-329 | a fault in the record leaves it exactly by a power-on reset or by the first store of another latching |
| FanRuns.TornLatchIsLost | main/diagnostics.c:319-329 | a run from power-on in which a latching returns, only warm resets follow, and a boot begins with no fault |
| ShutoffTimer.TimerMeansOn | main/fan_control.c:115-171 | the timer is active exactly when the mode is not always-on, and then the fan is wanted on |
| ShutoffTimer.NeverEarly | main/fan_control.c:157-171 | it never fires before its full duration of true time, however often ticks wrapped |
| ShutoffTimer.NeverLate | main/fan_control.c:157-171 | with cycles since the timer was started less than 2^32 ticks minus its duration apart, the first cycle at or after it fires, and none ends with an expired timer |
| CommandBook.CommandsAreConserved | main/fan_control.c:379-401 | numbered = interpreted + coalesced + waiting, the rest counted as rejected; interpreted in submission order, the accepted number being that of the last one interpreted and the waiting command the last submitted; the k-th has the k-th number |
| CommandBook.EachCommandIsCountedOnce | main/fan_control.c:281-313 | each speed command taken adds one, in the actor's next step, to exactly one of attempted transitions (another speed) and duplicates (the same), with fewer than 2^32-1 commands between two cycles |
| CommandBook.CommandsAreCountedOnce | main/fan_control.c:281-313 | over a boot attempts + duplicates = interpreted speed commands + the actor's own attempts |
| FanSolo.SoloCycleIsARun | main/fan_control.c:249-339 | an undisturbed cycle is an execution of the system's actor steps |
| FanSolo.SoloBootIsARun | main/fan_control.c:211-246 | so is an undisturbed boot |
| FanSolo.SoloCycleObeys | main/fan_control.c:281-308 | an undisturbed cycle in which no write fails ends without a fault at the speed wanted once the command was taken |
| FanSolo.ReceiveInterprets | main/fan_control.c:271-278 | outside maintenance the waiting command is taken, and what it asks for is wanted then, with its source, unless an older timer has just run out |
| FanSolo.ReceiveExpires | main/fan_control.c:157-171 | with no command waiting the speed wanted stays, unless the timer's time is up: then off, by the timer |
| FanSolo.ReceiveQuiesces | main/fan_control.c:259-265 | under the flag the fan is wanted off by maintenance, and no command is taken |
| FanSolo.SoloCycleFailsSafely | main/fan_control.c:300-313 | a cycle that faults leaves an output selected only if two of its writes failed, and its fault names the first |
| FanSolo.SoloBootTells | main/fan_control.c:211-236 | a boot reports ESP_FAIL in phase 1 exactly if one of its pin writes failed, and else what the record holds |
| FanSolo.SoloCycleCounts | main/fan_control.c:255-257 | the snapshot of a cycle has the coalesced and rejected counts of its beginning |
| FanController.Controller.Boot | main/fan_control.c:198-246 | the code before the loop takes the system's boot steps on the real driver; the output only goes off, and is off if the driver is open; if one of its writes fails it reports ESP_FAIL in phase 1 and does not enter the loop, else it reports what the record held and enters it exactly if the watchdog registration succeeded |
| FanController.Controller.ControlCycle | main/fan_control.c:249-339 | one pass takes the system's cycle steps; without a fault the decoder is at the applied speed, desired equals applied and nothing is pending; with one both are OFF and untimed, a new one names its first failing write, and an output is left on only if two writes failed; a fault is in the record; under the flag it ends acknowledged and off, or with a fault; if nothing fails the waiting command, the timer or maintenance gets its way, as the source shown says |
| FanController.Controller.InterpretCommand | main/fan_control.c:121-155 | a command's effect on the state and on the timer start |
| FanController.Controller.TimerExpired | main/fan_control.c:157-171 | the answer and the state of an expiring timer |
| FanController.Controller.LatchFanFault | main/diagnostics.c:319-329 | the record after all six stores |
| FanController.Controller.SubmitCommand | main/fan_control.c:369-406 | result, number and mailbox, in the system's submission step |
| FanController.Controller.RequestQuiesce | main/fan_control.c:437-445 | the critical section in one step: flag set, mailbox empty |
| FanController.Controller.FinishQuiesce | main/fan_control.c:447-452 | ESP_OK exactly if the bit is set, and then the fan is off down to the pins and wanted off, with no command waiting under the flag; else the maintenance is ended |
| FanController.Controller.EndMaintenance | main/fan_control.c:455-461 | clears the flag and says whether it was set |
| FanController.FirstPress | main/fan_control.c:198-339 | from power-on, if no write fails: boot, a press of key 1, any pause, and after one cycle the decoder is at the first speed |
| Seqlock.ReadsAreWholeAndRecent | main/fan_control.c:95-113 | in any interleaving a read that returns ESP_OK has one whole published snapshot, no older than the last publication before the call, with fewer than 2^31 publications during it |
| Seqlock.UndisturbedReadReturns | main/fan_control.c:95-113 | an attempt that begins while nothing is being published, and during which nothing is, ends the call with the newest snapshot |
| Seqlock.TimeoutIsFourDisturbances | main/fan_control.c:95-113 | a call gives up exactly after its fourth disturbed attempt |
| Seqlock.LappedReadIsTorn | main/fan_control.c:95-113 | with exactly 2^31 publications during it a read can return a mix that was never published |
| Seqlock.SameSequenceSameEpoch | main/fan_control.c:73-80 | equal sequence numbers at both ends mean that nothing was published in between |
| Breadcrumbs.RecordIsCrashConsistent | main/diagnostics.c:256-275 | a recording cut anywhere leaves its slot with the old event, none or the whole new one, and every other slot alone; in between its commit words read 0 and all ones |
| Breadcrumbs.RingRemembers | main/diagnostics.c:250-276 | after any history of recordings and resets each slot holds what was last recorded there to the end |
| Breadcrumbs.HeldEventsAreWhole | main/diagnostics.c:250-276 | a slot with a non-zero commit and a matching inverse holds one whole recorded event under its own number |
| Breadcrumbs.RingHoldsTheNewest | main/diagnostics.c:256-262 | uninterrupted, the slots hold exactly the last sixteen events unless the numbers started over within the last fifteen |
| Breadcrumbs.TurnLosesOne | main/diagnostics.c:256-262 | in that case the oldest of the sixteen is in no slot |
| Breadcrumbs.LatestIsTheNewest | main/diagnostics.c:278-298 | get-latest returns the newest event, and nothing exactly after the one numbered 2^32-1 |
| RestartMarker.MarkIsCrashConsistent | main/diagnostics.c:238-248 | from any contents a marking cut anywhere decodes to the old reason, none or the new one |
| RestartMarker.ConsumedAtOnce | main/diagnostics.c:206-208 | the first word zeroed, whichever it is, invalidates the marker |
| RestartMarker.PlannedWasMarked | main/diagnostics.c:188-208 | a planned reason was marked in the boot before, never in an earlier one |
| RestartMarker.LastMarkWins | main/diagnostics.c:238-248 | the last complete marking is the one found |
| Diagnostics.RtcMemory.RecordEvent | main/diagnostics.c:250-276 | RTC memory goes through exactly the stores of the specification, in order, so that a reset finds a prefix of them |
| Diagnostics.RtcMemory.GetLatestEvent | main/diagnostics.c:278-298 | the latest committed event of the ring, if any |
| Diagnostics.RtcMemory.MarkPlannedRestart | main/diagnostics.c:238-248 | reasons 1 to 3 leave a complete marking, any other changes nothing |
| Diagnostics.RtcMemory.Init | main/diagnostics.c:180-217 | what each record becomes after each kind of reset, the planned reason reported, the boot event recorded; a ring with a wrong magic word is started over |
| Diagnostics.RestartPlanned | main/diagnostics.c:188-248 | each of the three reasons comes back from the boot after a software restart, and from no other |
| OtaUpdate.DataFillsErased | main/ota_update.c:144-154 | programming the next piece over erased bytes keeps the slot equal to what was accepted followed by erased bytes |
| OtaUpdate.Session.EraseInactivePartition | main/ota_update.c:60-78 | success means every byte of the slot is erased |
| OtaUpdate.Session.Begin | main/ota_update.c:80-142 | each refusal before any flash call with its own error, in their order; success opens an empty session over an erased slot, and only if no image is pending; with working flash it succeeds exactly if no check refuses and no image is pending; with one pending the slot is kept exactly if a check refuses or it was erased already |
| OtaUpdate.RefusedButErased | main/ota_update.c:125-137 | a begin over a slot of zeros with an image pending: refused, and every byte of the slot erased |
| OtaUpdate.Session.Write | main/ota_update.c:144-154 | accepts exactly the data given, or accepts nothing; with working flash it accepts all that fits the declared size |
| OtaUpdate.Session.Finish | main/ota_update.c:156-181 | the session is over; the boot choice changes only on success, only for a complete image, and only after its validation succeeded |
| OtaUpdate.Session.Abort | main/ota_update.c:183-193 | no session is left |
| OtaUpdate.Session.SelectPrevious | main/ota_update.c:225-236 | refused during a session or without an image, else the result of the one flash call, and the boot choice changes exactly on success |
| OtaWorker.Worker.constructor | main/ota_worker.c:192-218 | both buffers free, nothing busy |
| OtaWorker.Worker.FailMaintenance | main/ota_worker.c:93-99 | session closed, not busy, fan released |
| OtaWorker.Worker.ExecuteBegin | main/ota_worker.c:104-119 | success: session open with the header accepted under the flag; failure: closed, or untouched after a quiesce timeout; with an acknowledgement and working flash it fails exactly if a check refuses or an image is pending, and in the latter case the slot is erased |
| OtaWorker.Worker.ExecuteWrite | main/ota_worker.c:120-126 | the piece is appended, or the session is closed |
| OtaWorker.Worker.ExecuteFinish | main/ota_worker.c:127-133 | set-boot only with the slot equal to the accepted image followed by erased bytes |
| OtaWorker.Worker.ExecuteSelectPrevious | main/ota_worker.c:137-148 | the boot choice changes only on success; with an acknowledgement, no session and working flash it succeeds exactly if a rollback is possible and there is a slot |
| OtaWorker.Worker.ExecuteConfirm | main/ota_worker.c:149-157 | no flash call without an acknowledgement; the image stays pending unless marked valid; the fan is released either way |
| OtaWorker.Worker.ExecuteRollback | main/ota_worker.c:158-162 | no flash call without an acknowledgement; with one the flag stays set, whatever comes of the call |
| OtaWorker.Worker.BeginAndWrite | main/ota_worker.c:266-274 | whatever comes of the command its buffer is back in the pool |
| OtaWorker.Worker.Write | main/ota_worker.c:276-283 | the same for a further piece |
| OtaWorker.Worker.AcquireBuffer | main/ota_worker.c:245-255 | the oldest free buffer, or none from an empty pool |
| OtaWorker.Worker.ReleaseBuffer | main/ota_worker.c:257-264 | the buffer is free again, and there is always room for it |
| Upload.Handler.Fail | main/network.c:821-841 | session closed, fan released, request over, and the status for each cause |
| Upload.Handler.ReceivePreflight | main/network.c:870-893 | the buffer starts with the first bytes of the body, however they arrive |
| Upload.Handler.ReceiveChunk | main/network.c:904-922 | one turn of the loop accepts exactly the next bytes of the body, or fails; the pool is as before |
| Upload.Handler.Post | main/network.c:843-966 | for any body and any split: set-boot only with the slot equal to the body followed by erased bytes; every failure leaves the boot choice and closes the session; the pool is as before; a busy handler, an empty body, a missing slot and a body larger than the slot are refused with 409, 422, 500 and 413, and every other body is taken on; if nothing fails a valid image is installed, a bad header leaves the slot alone, and a pending image means 409 with the slot erased |
| Upload.UploadOnce | main/network.c:843-966 | one upload over a slot of zeros: installed and chosen for the next boot, or, with an image pending, refused with 409 and the slot erased |
| Rendezvous.EveryCallGetsItsOwnResult | main/ota_worker.c:220-238 | in any interleaving of any number of callers each call that returned was sent, returned once, and returned the result of its own command |
| Rendezvous.EachCommandIsExecutedOnce | main/ota_worker.c:168-190 | the worker never executes a command it has executed before, and only one whose caller waits for it |
| Rendezvous.NobodyBlocksOnAQueue | main/ota_worker.c:220-238 | at most one command is queued, the queue-full timeout is unreachable, and the worker never waits for room in the pool |
| Rendezvous.BuffersArePartitioned | main/ota_worker.c:85-91 | each buffer is always in exactly one place: pool, one caller, or one pending command |
| OtaSafety.FlashCallsAreQuiesced | main/ota_worker.c:101-166 | every flash-changing call of an upload or selection is made with the flag set and the decoder off; one for the main loop exactly if no handler has ended maintenance since the quiesce |
| OtaSafety.FlagDoesNotLeak | main/ota_worker.c:101-166 | between commands, with no upload or selection in hand, the flag is set exactly if a rollback has failed and nobody has quiesced or ended maintenance since |
| OtaSafety.FailedRollbackStrands | main/ota_worker.c:158-162 | a rollback that fails under the flag leaves it set |
| OtaSafety.FailureReleasesEverything | main/ota_worker.c:93-136 | a command of the HTTP task that failed or aborted leaves no session, a worker that is not busy, and the flag clear |
| OtaSafety.MainLoopKnows | main/main.c:231-247 | the main loop goes on about its pending image exactly until it has been told that the image is marked valid |
| OtaSafety.QuietHttpKeepsTheFlag | main/ota_worker.c:149-162 | a command of the main loop is safe if the HTTP task is between requests when the worker starts on it and takes up none until the answer |
| OtaRace.ConfirmationCanLoseTheFlag | main/network.c:985-989 | a run from power-on to a confirmation with the flag clear |
| TouchGesture.NeverStuck | components/touch_gesture/touch_gesture.c:19-56 | the mask is the pads active in the stream; disarmed, a release is pending exactly when none is |
| TouchGesture.AcceptedWasAlone | components/touch_gesture/touch_gesture.c:58-82 | an accepted key was the only active pad for at least 40 ms |
| TouchGesture.AcceptsAreSpaced | components/touch_gesture/touch_gesture.c:58-82 | two accepts are at least 160 ms apart, with 120 ms between them in which no pad was active |
| TouchGesture.ArmedExactly | components/touch_gesture/touch_gesture.c:19-93 | the recogniser is armed exactly if every accept, second pad and discard has been followed by a poll that found the last release 120 ms old with no pad active since; an early release does not disarm |
| TouchGesture.LonePressIsAccepted | components/touch_gesture/touch_gesture.c:74-81 | a press is accepted, while its pad stays alone, by the first poll to which the clock shows it 40 ms old, and by no other, if whatever disarmed before it has been followed by 120 ms of quiet |
| TouchGesture.ReleaseRearms | components/touch_gesture/touch_gesture.c:63-70 | a disarmed recogniser is armed again, while no pad is active, by the first poll to which the clock shows the last release or discard 120 ms old, and stays armed |
| TouchGesture.Recogniser.Edge | components/touch_gesture/touch_gesture.c:19-56 | the in-place update equals the specification |
| TouchGesture.Recogniser.Poll | components/touch_gesture/touch_gesture.c:58-82 | the same for a poll and its answer |
| TouchGesture.Recogniser.DiscardUntilQuiet | components/touch_gesture/touch_gesture.c:84-93 | disarmed with nothing active and a release pending |
| DnsServer.ScanIsExact | components/dns_server/dns_server.c:56-71 | the offset is e exactly when bytes 12 to e-4 encode labels of 1 to 63 bytes closed by zero and e fits the packet; 0 exactly when there is no such e |
| DnsServer.WhateverFollows | components/dns_server/dns_server.c:56-71 | what comes after the question makes no difference |
| DnsServer.AnsweredExactly | components/dns_server/dns_server.c:73-94 | a packet is answered exactly if it asks for the address of one name and the answer fits |
| DnsServer.ReplyReparses | components/dns_server/dns_server.c:96-111 | the reply keeps id and question bytes, stays within the capacity and reads as the same question with one A record of the given address |
| DnsServer.QuestionEndOffset | components/dns_server/dns_server.c:56-71 | the loop computes that offset |
| DnsServer.BuildResponse | components/dns_server/dns_server.c:73-112 | the buffer becomes the reply in place, or is untouched with result 0 |
| SetupSequence.OpensExactly | main/main.c:26-53 | setup opens exactly on four keys 4, 5, 4, 5 in time, unless an odd number of pairs 4, 5, each in time with the next, leads up to them |
| SetupSequence.InTimeIsTenSeconds | main/main.c:32-34 | in time by the clock is within ten seconds exactly if less than a full clock turn has passed since the first key |
| SetupSequence.SteadyKeysAreInTime | main/main.c:32-34 | which is so while keys come less than 2^32 ticks minus the timeout apart |
| SetupSequence.OldKeyCountsAfterATurn | main/main.c:32-34 | after a pause of a full clock turn an old first key still counts |
| SetupSequence.MissedMatch | main/main.c:32-34 | six keys whose last four match in time and do not open setup |
| SetupSequence.FallbackIsLongestSuffix | main/main.c:35-52 | without timeouts the fallback is longest-suffix matching restarted after each hit |
| SetupSequence.SetupMatcher.Service | main/main.c:26-53 | the in-place update equals the specification |
| Probation.ConfirmedAfterSteadyWindow | main/main.c:208-249 | confirmation is asked for only after a full window whose observations are false for a while and then true |
| Probation.ConfirmedWhileConnected | main/main.c:208-249 | if the two observations of the confirming pass agree, at least one pass of the window saw a connection |
| Probation.ConfirmRequestedExactly | main/main.c:219-231 | pending, not just lost, window over by the clock, and connected at the end |
| Probation.RequestedExactly | main/main.c:208-249 | all requests of a pass, in order, from what the passes observed and when the window began: none once confirmed; rollback if the connection has just gone, or without a network after 30 seconds; else confirm, and roll back too if that comes back neither OK nor TIMEOUT |
| Probation.NoNetworkRollsBack | main/main.c:219-230 | a window in which nothing is ever connected ends in a rollback at its first pass 30 seconds on, and requests nothing before |
| Probation.PendingUntilConfirmed | main/main.c:231-247 | the image is pending exactly until a confirmation comes back OK |
| Probation.LossRollsBack | main/main.c:209-218 | a connection lost in the window is answered with a rollback in the same pass |
| Probation.Supervisor.Service | main/main.c:208-249 | the in-place update and the requests equal the specification |

## Left out

- CommandsAreCountedOnce: counts the actor's own attempts (timer, maintenance) as a separate term; EachCommandIsCountedOnce is the statement per command.
- ExecuteRollback: a rollback that succeeds does not return in the firmware; here it sets `rebooting`.
- Begin: the layout of the image header (magic bytes, chip and project name) belongs to ESP-IDF; here it is a predicate on the header bytes.
- Wi-Fi, provisioning, HTTP parsing, JSON, authorisation and origin checks in main/network.c: plumbing over ESP-IDF.
- Image and signature validation, bootloader rollback, FreeRTOS and ESP-IDF internals: calls with an arbitrary outcome.
- The publication for core dumps in `publish_snapshot`, stack, timing and rate statistics, service health: facts easy to read off the code.
- The methods of `FanController` are undisturbed executions; interference is what `FanControl` is for. The flag is not counted: a second holder's release ends the first one's period, so guarantees hold while the flag has stayed set.
- The publication order of `publish_snapshot` and the retry loop of `fan_control_get_snapshot` are steps of `Seqlock`, not methods: interleaving is their point.
- The wait in `fan_control_quiesce` and in `submit` is the enabling condition of a step; how long it lasts is not modelled.
- NULL arguments, creation of tasks and queues, and calls made before initialisation.
- The touch peripheral, LEDs, user interface and its brightness: hardware setup and rendering.
- The bit mask of the touch recogniser is a set of keys.
- `recovery_policy.c`, `service_health.c` and the name tables: only easy members.
- DNS task start and stop, sockets: scheduler-level detail.
- Weak-memory effects and a second core: the target has neither.
- The Home Assistant integration: a network client.
