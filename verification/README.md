# EdgeGuard verification model

EdgeGuard updates and provisions an embedded device. This project models the parts of it that have to
survive crashes, restarts and interleavings, and proves what they promise.

- `OtaModel`, `OtaHistory`, `OtaPlan`, `OtaAgent`, `OtaMain`: the OTA agent. A device has a visible state file, a set of
  contents that may survive a power loss, a boot id, and a history of everything it did. Saves, commands and
  the process itself may fail or stop between any two steps. The history of any number of lives is lawful, and
  lawful histories have the properties one cares about. `OtaPlan.Luck` is an environment in which no step
  fails; in it the agent also gets on: an update is carried through, a candidate that is not well rolled back.
- `Frame`, `Reassembly`, `ReassemblyRuns`, `HonestSender`, `Protocol`, `ProtocolKeys`: the BLE protocol engine,
  as relations on its tables, as runs, and as the object that changes them in place.
- `Security`, `DaemonModel`, `DaemonRuns`, `DaemonReplay`, `DaemonResults`, `Daemon`: window and connection epochs, and the
  provisioning daemon's main loop over all of it; when a request can be carried out twice, and what a client reads.
- `GattRead`: long reads in slices. `Store`, `StoreForget`: the provisioning store and the Wi-Fi operations.
- `Crc32`, `CrcPolynomial`, `AbMetadata`: the A/B boot record. `Control`: the control socket's hand-off.
- `Range`, `Download`, `DownloadProgress`, `Downloader`: resumable download, with the server's end.
- `Json`, `JsonText`, `JsonProofs`, `JsonLex`: the JSON recogniser. `ShellQuote`, `Version`: other scanners.

Nondeterminism is written as arbitrary assignment or as a parameter that carries what the environment
answered. Specifications are functions and relations on values; the classes refine them.

Where code and claims part, the code is modelled as it is, with an input that shows the failure and the
condition under which the claim holds.

- A request can be carried out twice in one window epoch: when an accepted frame's sender is refused because
  BlueZ no longer reports it connected, the daemon empties the replay cache without moving the epoch
  (`DaemonReplay.CompletesTwice`). It can exactly if the cache does not hold its name; up to 64 requests,
  exactly after such a refusal (`DaemonReplay.AgainExactlyAfterDrop`).
- A Wi-Fi operation that reports no persistent change may have changed the record
  (`Store.TopGeneration`, without any fault). It does exactly if it is stranded (`Store.Store.ApplyWifi`,
  `Store.StrandedWhen`).
- A durable record of the OTA agent can be followed by one of a lower state that is not IDLE
  (`OtaHistory.UnsyncedReset`): exactly if a reset to IDLE was renamed into place but not synced
  (`OtaHistory.FallsExactly`), which may stand right over an error-free CHECK_UPDATE, PRECHECK or
  reported REPORT_SUCCESS and no other (`OtaHistory.ResetFalls`).
- A forget that was begun need not ever be completed: applying a configuration beside its tombstone
  (`StoreForget.Clash`) makes every later forget and reconciliation fail (`StoreForget.NeverForgotten`); for a
  caller that does not do that, it always can be (`StoreForget.AlwaysForgettable`).
- Mark-good does not always make its slot primary (`AbMetadata.MarkGoodTieGoesToA`, `AbMetadata.MutationPicks`).
- A commit may be authorised after its peer was disturbed, if that happens between the last read of the peer's
  epoch and the check of the window (`Security.LateDisturbance`, from any history `Security.LateEventsUnseen`);
  not otherwise (`Security.CommitIsFresh`).

`dafny verify dfyconfig.toml` checks the whole project.

## Model

| member | source | states |
|---|---|---|
| `OtaModel.TransitionRaises` | RK3588_app/edgeguard-remote-ota-agent/src/state_machine.c:6-33 | every allowed transition not into IDLE raises the state index; post-install states are entered only from REBOOT_PENDING or one another |
| `OtaModel.ChainIsShort` | RK3588_app/edgeguard-remote-ota-agent/src/state_machine.c:6-33 | a chain of allowed moves without IDLE has at most fourteen, bounded by the difference of the indices |
| `OtaModel.FailureIsFinal` | RK3588_app/edgeguard-remote-ota-agent/src/state_machine.c:6-33 | a valid record that carries an error can move nowhere but from ROLLBACK to ERROR |
| `OtaModel.AdmitsExactlyUpgrades` | RK3588_app/edgeguard-remote-ota-agent/src/compatibility.c:6-30 | an update is reported exactly for a compatible, well-formed manifest whose version triple is strictly greater |
| `OtaHistory.AtMostOnce` | RK3588_app/edgeguard-remote-ota-agent/src/state_machine.c:118-169 | over any lawful history an attempt id is installed at most once, marked at most once, and never both good and bad |
| `OtaHistory.MarkGoodIsEarned` | RK3588_app/edgeguard-remote-ota-agent/src/main.c:170-184 | before a mark-good the same process saw another boot than the one of the install, a passed health check, the candidate as current slot and the attempt's own release; the attempt was admitted from a strictly older release and installed |
| `OtaHistory.InstallIsRecordedFirst` | RK3588_app/edgeguard-remote-ota-agent/src/services.c:146-150 | an install starts only after INSTALLING for that attempt became durable, with no write since |
| `OtaHistory.RebootIsAuthorised` | RK3588_app/edgeguard-remote-ota-agent/src/reboot.c:16-33 | the step before a reboot request is the fsync of the record that authorises it; an install reboot is asked for in the boot of the install, a rollback reboot by a process that saw the candidate current |
| `OtaHistory.FirstErrorIsKept` | RK3588_app/edgeguard-remote-ota-agent/src/state_machine.c:171-189 | over any lawful history, once a record with an error is durable every later write of the state file repeats that record |
| `OtaHistory.RecordIsEarned` | RK3588_app/edgeguard-remote-ota-agent/src/services.c:109-182 | over any lawful history a durable record other than ERROR tells the truth: the actions of all states before its own have succeeded for its attempt, its install was made, a MARK_GOOD passed the health check, a REPORT_SUCCESS was marked good, a health ROLLBACK marked bad |
| `OtaHistory.SuccessIsReported` | RK3588_app/edgeguard-remote-ota-agent/src/services.c:177-182 | a success is reset to IDLE only after its report went through |
| `OtaHistory.WritesRise` | RK3588_app/edgeguard-remote-ota-agent/src/state_machine.c:6-33 | over any lawful history, every write after a durable record repeats it or raises the state index, until a reset to IDLE |
| `OtaHistory.DurableMovesAreFew` | RK3588_app/edgeguard-remote-ota-agent/src/state_machine.c:91-98 | so between two resets the durable record changes at most fourteen times, each time upwards |
| `OtaHistory.FallsExactly` | RK3588_app/edgeguard-remote-ota-agent/src/persistence.c:112-124 | without that condition it is false: over any lawful history, after the last durable record (above CHECK_NETWORK) the next one can be another record that is not higher and not IDLE if and only if a reset to IDLE has been renamed into place since |
| `OtaHistory.ResetFalls` | RK3588_app/edgeguard-remote-ota-agent/src/state_machine.c:6-33 | whatever the history before, an unsynced reset and a durable CHECK_NETWORK may follow a durable record above it if and only if that is an error-free CHECK_UPDATE or PRECHECK, or a REPORT_SUCCESS that has been reported |
| `OtaHistory.UnsyncedReset` | RK3588_app/edgeguard-remote-ota-agent/src/persistence.c:112-124 | an instance: a lawful history with durable CHECK_UPDATE and then durable CHECK_NETWORK |
| `OtaHistory.OnlyTheError` | RK3588_app/edgeguard-remote-ota-agent/src/persistence.c:85-130 | after a durable error no other content can survive a power loss |
| `OtaHistory.InstallRecorded` | RK3588_app/edgeguard-remote-ota-agent/src/state_machine.c:118-169 | a record past the install proves that the install is in the history |
| `OtaHistory.DiskComesLast` | RK3588_app/edgeguard-remote-ota-agent/src/persistence.c:85-130 | the record the summary calls durable is the last one synced, with no rename since |
| `OtaHistory.LawfulSnoc` | RK3588_app/edgeguard-remote-ota-agent/src/main.c:91-198 | a history stays lawful when a permitted event is added |
| `OtaHistory.RenameKeeps` | RK3588_app/edgeguard-remote-ota-agent/src/persistence.c:112-124 | the device invariant survives the moment between rename and directory sync, when either record may survive |
| `OtaHistory.FsyncKeeps` | RK3588_app/edgeguard-remote-ota-agent/src/persistence.c:112-124 | and the sync that makes the new record durable |
| `OtaHistory.EffectKeeps` | RK3588_app/edgeguard-remote-ota-agent/src/services.c:146-176 | an install or a mark carried out for the only record on disk keeps the device invariant |
| `OtaHistory.PowerKeeps` | RK3588_app/edgeguard-remote-ota-agent/src/persistence.c:85-130 | a power loss that leaves any possible record keeps the device invariant |
| `OtaAgent.Device.Save` | RK3588_app/edgeguard-remote-ota-agent/src/persistence.c:85-130 | a save ends with the old record, the new one, or either of them; success means the new one is durable |
| `OtaAgent.Device.Mark` | RK3588_app/edgeguard-remote-ota-agent/src/rauc_adapter.c:302-317 | RAUC is asked to mark only after the expected slot was seen as current, and success means the mark is in the history and counted; files and installs are untouched |
| `OtaAgent.Device.Install` | RK3588_app/edgeguard-remote-ota-agent/src/rauc_adapter.c:283-291 | the attempt joins the history even if the command reports failure or the process dies |
| `OtaAgent.SaveKeeps` | RK3588_app/edgeguard-remote-ota-agent/src/persistence.c:85-130 | whatever a save comes to, the invariant survives and only the disk part of the history summary changes |
| `OtaAgent.RecordTells` | RK3588_app/edgeguard-remote-ota-agent/src/state_machine.c:118-169 | a record on disk tells how far its attempt has come: an installed attempt is at least INSTALLING, a bad one past HEALTH_CHECK, a good one at MARK_GOOD |
| `OtaAgent.ProposalReady` | RK3588_app/edgeguard-remote-ota-agent/src/state_machine.c:63-99 | after a durable transition the process may rely on what the new state promises |
| `OtaAgent.RecoveredReady` | RK3588_app/edgeguard-remote-ota-agent/src/state_machine.c:145-167 | so may a process that recovered into the candidate after the install |
| `OtaAgent.StateMachine.Open` | RK3588_app/edgeguard-remote-ota-agent/src/state_machine.c:35-54 | afterwards memory equals the visible file; only a missing file starts a fresh record |
| `OtaAgent.StateMachine.Transition` | RK3588_app/edgeguard-remote-ota-agent/src/state_machine.c:63-99 | memory moves only after durability; an uncertain save blocks the machine, a refused one changes nothing |
| `OtaAgent.StateMachine.Fail` | RK3588_app/edgeguard-remote-ota-agent/src/state_machine.c:101-116 | the recorded error and state are those of the failing state, durably |
| `OtaAgent.StateMachine.EnterSlot` | RK3588_app/edgeguard-remote-ota-agent/src/state_machine.c:145-169 | a changed boot goes on to the health check in the candidate slot, to ROLLBACK in the previous one, to ERROR otherwise |
| `OtaAgent.StateMachine.Recover` | RK3588_app/edgeguard-remote-ota-agent/src/state_machine.c:118-169 | an interrupted install, health check or mark is never replayed; a pending reboot in the same boot is kept; a blocked machine does nothing |
| `OtaAgent.StateMachine.Reboot` | RK3588_app/edgeguard-remote-ota-agent/src/state_machine.c:171-189 | success means the request for the current record is in the history; a blocked machine or a wrong state asks for nothing |
| `OtaAgent.MoveKeeps` | RK3588_app/edgeguard-remote-ota-agent/src/state_machine.c:63-99 | any outcome of a proposed transition keeps the device invariant and only extends the history |
| `OtaMain.InstallPhase` | RK3588_app/edgeguard-remote-ota-agent/src/services.c:146-150 | advancing means the attempt is installed; an install is never retried |
| `OtaMain.HealthPhase` | RK3588_app/edgeguard-remote-ota-agent/src/services.c:151-170 | the health check ends in evidence for mark-good, in a mark-bad that is in the history and a roll-back, or in a failure; a healthy candidate goes on to MARK_GOOD, one that is not well to ROLLBACK |
| `OtaMain.GoodPhase` | RK3588_app/edgeguard-remote-ota-agent/src/services.c:171-176 | advancing means that RAUC was asked to mark this attempt good in this process; and with nothing in the way it does advance |
| `OtaMain.GuardGood` | RK3588_app/edgeguard-remote-ota-agent/src/main.c:123-132 | the candidate's own release is read again before mark-good, or the attempt fails |
| `OtaMain.ActiveTurn` | RK3588_app/edgeguard-remote-ota-agent/src/main.c:121-191 | one turn of the loop keeps the invariant and moves only along allowed transitions |
| `OtaMain.OneTurn` | RK3588_app/edgeguard-remote-ota-agent/src/main.c:91-198 | one round: with nothing in the way exactly the next record of the plan, and at REBOOT_PENDING the request over the durable record |
| `OtaMain.Run` | RK3588_app/edgeguard-remote-ota-agent/src/main.c:91-198 | with nothing in the way nine rounds take an update from IDLE to its reboot and three take it from the health check to its report; one takes a candidate that is not well to its roll-back reboot |
| `OtaMain.SettleRollback` | RK3588_app/edgeguard-remote-ota-agent/src/main.c:230-252 | a pending rollback reboot is repeated only while the candidate is still the current slot |
| `OtaMain.AgentMain` | RK3588_app/edgeguard-remote-ota-agent/src/main.c:200-269 | a whole process keeps the device invariant and only extends the history; with nothing in the way it takes an update from IDLE to its reboot, or from its first boot to its report, or a candidate that is not well to the reboot out of it |
| `OtaMain.Live` | RK3588_app/edgeguard-remote-ota-agent/src/main.c:91-269 | any number of process lives with power losses in between keeps the whole history lawful |
| `OtaMain.Lifetime` | RK3588_app/edgeguard-remote-ota-agent/src/main.c:91-269 | from a device without a state file every reachable history is lawful |
| `OtaPlan.PlanFollows` | RK3588_app/edgeguard-remote-ota-agent/src/state_machine.c:6-99 | each record of an undisturbed update is valid and may follow the one before: allowed transition, identity kept |
| `OtaMain.CompleteUpdate` | RK3588_app/edgeguard-remote-ota-agent/src/main.c:91-269 | progress, from a device without a state file: for every offered upgrade and every pair of boots, the update is installed, the reboot into the other slot asked for, the candidate marked good and the success reported |
| `OtaMain.FailedUpdate` | RK3588_app/edgeguard-remote-ota-agent/src/services.c:151-169 | and for every candidate that fails its health check: it is marked bad, and the reboot out of it asked for over the only durable record, ROLLBACK |
| `Version.VersionParse` | RK3588_app/edgeguard-remote-ota-agent/src/version.c:3-24 | the loop computes the parsed triple without wraparound |
| `Version.PersistedVersionValid` | RK3588_app/edgeguard-remote-ota-agent/src/persistence.c:161-173 | the second scanner accepts exactly the strings the first one parses |
| `Version.ParseOfPrint` | RK3588_app/edgeguard-remote-ota-agent/src/version.c:3-24 | parsing a printed version gives it back; components above 2^32-1 are refused |
| `Version.PrintOfParse` | RK3588_app/edgeguard-remote-ota-agent/src/version.c:3-24 | printing a parsed version gives the text back |
| `Version.AcceptsExactlyPrints` | RK3588_app/edgeguard-remote-ota-agent/src/version.c:3-24 | the accepted strings are exactly the canonical prints of three uint32 values |
| `Version.CompareIsRank` | RK3588_app/edgeguard-remote-ota-agent/src/version.c:26-31 | comparison is the order of the 96-bit numbers the versions spell |
| `Crc32.Crc32Ieee` | RK3588_app/edgeguard-rk-ab/edgeguard-rk-abctl.c:55-70 | the loop computes the checksum over all bytes (which checksum that is, CrcPolynomial says) |
| `Crc32.ByteStepLinear` | RK3588_app/edgeguard-rk-ab/edgeguard-rk-abctl.c:59-67 | a byte step respects exclusive or |
| `Crc32.ByteStepInjective` | RK3588_app/edgeguard-rk-ab/edgeguard-rk-abctl.c:59-67 | a byte step maps different registers to different registers |
| `Crc32.BurstDetected` | RK3588_app/edgeguard-rk-ab/edgeguard-rk-abctl.c:55-70 | inputs of one length that differ only within four consecutive bytes have different checksums |
| `CrcPolynomial.CrcIsRemainder` | RK3588_app/edgeguard-rk-ab/edgeguard-rk-abctl.c:55-70 | the complemented checksum is the remainder of x^32 times the message, plus the preset ones, modulo the generator with exponents 32, 26, 23, 22, 16, 12, 11, 10, 8, 7, 5, 4, 2, 1, 0 over GF(2) |
| `CrcPolynomial.RegisterIsRemainder` | RK3588_app/edgeguard-rk-ab/edgeguard-rk-abctl.c:57-67 | so it is at every point of the loop, from any register |
| `CrcPolynomial.BitStepIsTimesX` | RK3588_app/edgeguard-rk-ab/edgeguard-rk-abctl.c:61-66 | one shift multiplies by x modulo that generator |
| `CrcPolynomial.CheckValue` | RK3588_app/edgeguard-rk-ab/edgeguard-rk-abctl.c:55-70 | the checksum of "123456789" is 0xcbf43926 |
| `AbMetadata.LoadOfStore` | RK3588_app/edgeguard-rk-ab/edgeguard-rk-abctl.c:72-88 | the big-endian codec round-trips |
| `AbMetadata.LoadInjective` | RK3588_app/edgeguard-rk-ab/edgeguard-rk-abctl.c:72-79 | two stored words are equal only as bytes |
| `AbMetadata.LoadIsBigEndian` | RK3588_app/edgeguard-rk-ab/edgeguard-rk-abctl.c:72-79 | the first byte is the most significant |
| `AbMetadata.DamageDetected` | RK3588_app/edgeguard-rk-ab/edgeguard-rk-abctl.c:98-168 | a sealed record with exactly one of its 32 bytes changed is no longer sealed |
| `AbMetadata.Validate` | RK3588_app/edgeguard-rk-ab/edgeguard-rk-abctl.c:98-168 | validate accepts exactly the well-formed, sealed records |
| `AbMetadata.MutationKeeps` | RK3588_app/edgeguard-rk-ab/edgeguard-rk-abctl.c:923-1111 | a mutation leaves a well-formed record with a bootable slot, its slot in the state named, the other slot as it was |
| `AbMetadata.MutationPicks` | RK3588_app/edgeguard-rk-ab/edgeguard-rk-abctl.c:751-777 | set-primary makes its slot primary and mark-bad the other one; mark-good does so unless the peer is the favoured tie |
| `AbMetadata.StatesAreEarned` | RK3588_app/edgeguard-rk-ab/edgeguard-rk-abctl.c:923-1111 | a slot becomes confirmed only by mark-good while it runs, bad only by mark-bad beside a bootable peer, pending only by set-primary |
| `AbMetadata.MarkGoodTieGoesToA` | RK3588_app/edgeguard-rk-ab/edgeguard-rk-abctl.c:769-777 | there is a valid, sealed record with both slots at priority 15 on which mark-good of b is carried out and leaves a primary |
| `AbMetadata.TraceKeeps` | RK3588_app/edgeguard-rk-ab/edgeguard-rk-abctl.c:923-1111 | over every run of mutations the record stays valid, bootable and in the native states, and unnamed fields keep their bytes |
| `AbMetadata.Misc.WriteAndVerify` | RK3588_app/edgeguard-rk-ab/edgeguard-rk-abctl.c:281-342 | success means the stored bytes are the sealed record, valid, with the covered part as given |
| `AbMetadata.Misc.Mutate` | RK3588_app/edgeguard-rk-ab/edgeguard-rk-abctl.c:923-1111 | success if and only if the running slot is known, the stored record is valid, the mutation allowed, and the write whole, synced and read back (or none needed); then it is exactly the named change; a refused mutation leaves the partition untouched, any other its surroundings |
| `ProtocolKeys.FormatIdInjective` | RK3588_app/edgeguard-provisioningd/src/protocol.c:74-80 | two transaction ids with the same text are equal |
| `ProtocolKeys.FormatIdText` | RK3588_app/edgeguard-provisioningd/src/protocol.c:74-80 | that text is the hexadecimal digits of the sixteen bytes in order, with dashes at 8, 13, 18 and 23 and nowhere else |
| `ProtocolKeys.IncompleteKeyInjective` | RK3588_app/edgeguard-provisioningd/src/protocol.c:68-72 | an incomplete-table key determines characteristic and peer |
| `ProtocolKeys.CompletedKeyInjective` | RK3588_app/edgeguard-provisioningd/src/protocol.c:142-149 | a cache key determines characteristic, peer and transaction |
| `ProtocolKeys.KeyNamesItsPeer` | RK3588_app/edgeguard-provisioningd/src/protocol.c:290-309 | the text between the outer colons of a key is its peer path and no other |
| `ProtocolKeys.RequestDigestInjective` | RK3588_app/edgeguard-provisioningd/src/protocol.c:320-336 | the digested bytes determine peer, characteristic, opcode and data |
| `ProtocolKeys.ScopeInjective` | RK3588_app/edgeguard-provisioningd/src/protocol.c:82-140 | the length-prefixed preimage of the Agent request id determines every field of the scope |
| `Frame.ParseOfEncode` | RK3588_app/edgeguard-provisioningd/src/protocol.c:414-458 | a frame a central may send is understood as it was meant |
| `Frame.EncodeOfParse` | RK3588_app/edgeguard-provisioningd/src/protocol.c:414-458 | nothing else is understood, and each frame has one spelling |
| `Frame.ParsesTable` | RK3588_app/edgeguard-provisioningd/tests/test_protocol.c:5-25 | a value is parsed as a frame if and only if it spells that frame by the table of the design, field by field |
| `Reassembly.MarksFull` | RK3588_app/edgeguard-provisioningd/src/protocol.c:503-520 | a count of marks below the length reaches it exactly when no byte is missing |
| `Reassembly.SweptOk` | RK3588_app/edgeguard-provisioningd/src/protocol.c:270-288 | a sweep of timed-out entries keeps the tables within bounds and every buffer sound |
| `Reassembly.DecideOk` | RK3588_app/edgeguard-provisioningd/src/protocol.c:473-546 | a frame leaves its transaction sound, starts one only below the limit of eight, and completes only uncached ids |
| `ReassemblyRuns.RunOk` | RK3588_app/edgeguard-provisioningd/src/protocol.c:252-288 | at every point of every run the tables hold at most 8, 64 and 64 entries, and each received counter equals its number of marks |
| `ReassemblyRuns.RefusalLeavesNothing` | RK3588_app/edgeguard-provisioningd/src/protocol.c:414-546 | a refused frame adds neither a transaction nor a cache entry |
| `ReassemblyRuns.LateIsRefused` | RK3588_app/edgeguard-provisioningd/src/protocol.c:459-473 | a frame 30 s after the last one, or 60 s after the first, is refused as timed out, its transaction gone and its id held for 60 s |
| `ReassemblyRuns.TimedOutStays` | RK3588_app/edgeguard-provisioningd/src/protocol.c:252-268 | while that is held no frame of the id is accepted, not even a new START |
| `ReassemblyRuns.SweepTakesTheLate` | RK3588_app/edgeguard-provisioningd/src/protocol.c:270-288 | a sweep takes a transaction if and only if it is late, and leaves the others as they were |
| `ReassemblyRuns.OpensAndEnds` | RK3588_app/edgeguard-provisioningd/src/protocol.c:473-546 | only a START opens a transaction, exactly an END hands one over, and only as valid UTF-8 without NUL |
| `ReassemblyRuns.TransactionHolds` | RK3588_app/edgeguard-provisioningd/src/protocol.c:503-520 | over every run a transaction's buffer holds exactly the slices it has received |
| `ReassemblyRuns.OutputIsTheSlices` | RK3588_app/edgeguard-provisioningd/src/protocol.c:359-412 | an accepted message agrees with every slice of its transaction and has no other byte |
| `HonestSender.HonestTransfer` | RK3588_app/edgeguard-provisioningd/src/protocol.c:414-546 | whatever traffic comes in between, also malformed frames and other headers on its own slot, an in-time transfer whose slices start with START, cover the text and end with END hands over exactly that text: as new if and only if the cache does not know its id at that moment, else as a repetition with exactly the cached result if it is the cached request, else to be rejected |
| `HonestSender.OnTheWay` | RK3588_app/edgeguard-provisioningd/src/protocol.c:473-535 | and in the meantime the transaction carries exactly the slices sent so far |
| `Protocol.MergeBytes` | RK3588_app/edgeguard-provisioningd/src/protocol.c:503-520 | the loop stops exactly on a contradiction, and otherwise yields the merged buffer, marks and count |
| `Protocol.Protocol.RememberTimeout` | RK3588_app/edgeguard-provisioningd/src/protocol.c:252-268 | the marker goes in, others stay unless the table is full, which it never exceeds |
| `Protocol.Protocol.Expire` | RK3588_app/edgeguard-provisioningd/src/protocol.c:270-288 | stale transactions become timeout markers; elapsed markers and results go; nothing else changes |
| `Protocol.Protocol.DropPeer` | RK3588_app/edgeguard-provisioningd/src/protocol.c:290-309 | the peer's transactions and markers go, its cached results stay |
| `Protocol.Protocol.Oldest` | RK3588_app/edgeguard-provisioningd/src/protocol.c:344-352 | the search finds an entry completed no later than any other |
| `Protocol.Protocol.Prune` | RK3588_app/edgeguard-provisioningd/src/protocol.c:338-357 | at the limit one oldest entry goes, below it nothing does |
| `Protocol.Protocol.CompleteTransaction` | RK3588_app/edgeguard-provisioningd/src/protocol.c:359-412 | text check, replay check and cache insertion as specified, the transaction gone in every case |
| `Protocol.Protocol.Accept` | RK3588_app/edgeguard-provisioningd/src/protocol.c:414-546 | the in-place engine refines the table relation about which the run theorems speak |
| `Protocol.Protocol.CacheResult` | RK3588_app/edgeguard-provisioningd/src/protocol.c:578-601 | a result reaches only the entry of its own key |
| `Protocol.OwnThenSwept` | RK3588_app/edgeguard-provisioningd/src/protocol.c:459-473 | timing out the frame's own stale transaction first makes no difference to the sweep |
| `Security.MovedReturns` | RK3588_app/edgeguard-provisioningd/src/security.c:16-21 | a counter that skips zero comes back to a value only after a full cycle of 2^64-1 moves |
| `Security.CommitIsFresh` | RK3588_app/edgeguard-provisioningd/src/security.c:220-248 | a commit authorised with the captured epochs: no window event since, the same owner throughout, no disturbance of the peer up to the last read of its epoch, less than 120 s after the window opened |
| `Security.CommitExactly` | RK3588_app/edgeguard-provisioningd/src/security.c:220-248 | over every run: a commit is authorised if and only if nothing has ended the window since the capture, it is still in time, and the peer is connected, bonded and under the very epoch captured |
| `Security.ReportedExactly` | RK3588_app/edgeguard-provisioningd/src/bluez.c:638-671 | and that epoch is the captured one if and only if nothing has disturbed the peer up to the read |
| `Security.OwnerIsTrusted` | RK3588_app/edgeguard-provisioningd/src/security.c:189-218 | over every run the owner of a window claimed it by an encrypted, bonded frame in time, while nobody owned it |
| `Security.LateEventsUnseen` | RK3588_app/edgeguard-provisioningd/src/security.c:220-248 | the code gives no more: after any history, any events that touch only the peers leave the verdict on a commit as it was |
| `Security.LateDisturbance` | RK3588_app/edgeguard-provisioningd/src/main.c:76-87 | a history with BlueZ running in which the peer is disturbed after the last read of its epoch and its commit is authorised |
| `Security.OwnedIsOpen` | RK3588_app/edgeguard-provisioningd/src/security.c:73-118 | over every run an owner implies an open window |
| `Security.OpenedBy` | RK3588_app/edgeguard-provisioningd/src/security.c:73-87 | every open window goes back to one press whose time fixes its deadline |
| `Security.WindowUntouched` | RK3588_app/edgeguard-provisioningd/src/security.c:29-118 | while the epoch stands still an owned window does not change |
| `Security.PeerKept` | RK3588_app/edgeguard-provisioningd/src/bluez.c:638-671 | a peer whose stored epoch is not newer has not been disturbed |
| `Security.WindowGuard.Authorize` | RK3588_app/edgeguard-provisioningd/src/security.c:189-218 | verdict and claimed owner are those of the specification |
| `Security.WindowGuard.Commit` | RK3588_app/edgeguard-provisioningd/src/security.c:220-248 | the commit check answers as the specification does |
| `Security.WindowGuard.CloseWindow` | RK3588_app/edgeguard-provisioningd/src/security.c:89-108 | the epoch moves exactly when the window was open or owned |
| `Security.WindowGuard.AdvanceEpoch` | RK3588_app/edgeguard-provisioningd/src/security.c:16-21 | the 64-bit increment skips zero |
| `Security.PeerTable.PeerEpoch` | RK3588_app/edgeguard-provisioningd/src/bluez.c:646-656 | an unknown peer gets the next epoch, a known one keeps its own |
| `DaemonModel.StepInv` | RK3588_app/edgeguard-provisioningd/src/main.c:42-278 | every callback of the main loop keeps ownership, worker and replay-cache invariants |
| `DaemonRuns.EntriesBelongToOwner` | RK3588_app/edgeguard-provisioningd/src/main.c:164-248 | at every event boundary cached and incomplete entries, the active request and the readable result belong to the owner of the open window |
| `DaemonRuns.EpochBoundary` | RK3588_app/edgeguard-provisioningd/src/main.c:42-54 | whatever moves the window epoch empties the tables; while it stands an owned window stands too, the list of completions grows by exactly the requests let through, and only a drop empties it |
| `DaemonRuns.EpochMovesExactly` | RK3588_app/edgeguard-provisioningd/src/main.c:42-76 | the epoch moves if and only if a press, the end of an open window, the loss of BlueZ, or a frame that finds the window run out |
| `DaemonRuns.DroppedBy` | RK3588_app/edgeguard-provisioningd/src/main.c:204-211 | the refusal of an accepted frame empties the tables, and leaves the window as it is if and only if BlueZ reports its sender as not connected: that is a drop |
| `DaemonRuns.ListedExactly` | RK3588_app/edgeguard-provisioningd/src/main.c:164-248 | over every run: a name is on the list if and only if an event of the present epoch completed it and no drop has followed |
| `DaemonRuns.AtMostOnce` | RK3588_app/edgeguard-provisioningd/src/main.c:164-248 | over every run: between two completions of one name in one window epoch there is a drop, unless more than 64 requests complete |
| `DaemonRuns.CompletesUnknown` | RK3588_app/edgeguard-provisioningd/src/protocol.c:359-412 | what completes is not in the replay cache, whose entries outlive the window |
| `DaemonReplay.RunsAgainExactly` | RK3588_app/edgeguard-provisioningd/src/main.c:164-248 | in every state with an open window of the peer and an idle worker: the worker can be set on a request of a given name if and only if the replay cache does not hold the name |
| `DaemonReplay.ForgottenExactly` | RK3588_app/edgeguard-provisioningd/src/main.c:204-211 | a name completed in the present epoch is off the list if and only if a drop followed and it has not completed since |
| `DaemonReplay.AgainExactlyAfterDrop` | RK3588_app/edgeguard-provisioningd/src/main.c:164-248 | over every run: a request completed under the present press can be carried out once more if and only if it is not in the replay cache; up to 64 requests, if and only if a drop followed its last completion |
| `DaemonReplay.LostSenderRunsAgain` | RK3588_app/edgeguard-provisioningd/src/main.c:204-211 | from every state that may receive the message, at any time of the window, three events of the same epoch make the daemon forget it and carry it out |
| `DaemonReplay.DroppedForgets` | RK3588_app/edgeguard-provisioningd/src/main.c:204-211 | after a drop every honest transfer completes afresh, in however many frames, whatever completed before |
| `DaemonReplay.CompletesTwice` | RK3588_app/edgeguard-provisioningd/src/main.c:204-211 | for every message a run in which it is dispatched twice in one window epoch |
| `DaemonReplay.SixtyFiveForget` | RK3588_app/edgeguard-provisioningd/src/protocol.c:338-358 | the bound of 64 is tight: for every sender a run of 65 different requests in one epoch without a drop, after which one of them can be carried out once more |
| `DaemonRuns.DispatchIsACompletion` | RK3588_app/edgeguard-provisioningd/src/main.c:233-247 | the worker is only started for the request that completes in the same event |
| `DaemonRuns.ResultStaysWithItsRequest` | RK3588_app/edgeguard-provisioningd/src/main.c:96-123 | a result is stored only for its requester and under the cache entry with its request's digest |
| `DaemonResults.ClientReads` | RK3588_app/edgeguard-provisioningd/src/main.c:125-162 | over every run: a peer reads bytes if and only if they are the last acknowledgement, result or repetition of the present window, given to that peer, which is connected, bonded and encrypted, before the deadline |
| `DaemonResults.ReadableIsLastSaid` | RK3588_app/edgeguard-provisioningd/src/main.c:96-123 | over every run the readable result and its reader are those of the last thing said in the present window |
| `DaemonResults.ResultIsReadable` | RK3588_app/edgeguard-provisioningd/src/main.c:96-123 | the result of the request at work becomes readable for its requester, and ends the active request if and only if it says so |
| `DaemonResults.ResultIsCached` | RK3588_app/edgeguard-provisioningd/src/main.c:100-110 | and it is the answer to a repetition, for another ten minutes, if the cache still holds the request |
| `DaemonResults.RequestIsTaken` | RK3588_app/edgeguard-provisioningd/src/main.c:233-247 | a request let through sets the worker on it and its acknowledgement becomes readable |
| `DaemonResults.CacheIsLastKnown` | RK3588_app/edgeguard-provisioningd/src/protocol.c:359-412 | over every run a cache entry is of the request last let through under its name, with the result last stored for it |
| `DaemonResults.RepetitionGetsItsResult` | RK3588_app/edgeguard-provisioningd/src/protocol.c:376-400 | over every run what is answered as a repetition is that very request, and the answer that very result |
| `Daemon.Daemon.WriteValue` | RK3588_app/edgeguard-provisioningd/src/main.c:164-248 | the callback refines the event relation, whatever the environment answers |
| `Daemon.Daemon.PublishResult` | RK3588_app/edgeguard-provisioningd/src/main.c:96-123 | result caching, the readable result and the end of the active request as specified (what that comes to over runs, DaemonResults says) |
| `Daemon.Daemon.ReadResult` | RK3588_app/edgeguard-provisioningd/src/main.c:125-162 | the read callback answers as the specification does and changes nothing |
| `Daemon.Daemon.Submit` | RK3588_app/edgeguard-provisioningd/src/operations.c:601-649 | busy is taken only with the ACCEPTED result published; a refusal leaves the state as it was |
| `Daemon.Daemon.Completed` | RK3588_app/edgeguard-provisioningd/src/operations.c:559-580 | busy ends before the result is published; a reconciliation publishes nothing |
| `Daemon.Daemon.PhysicalPresence` | RK3588_app/edgeguard-provisioningd/src/main.c:56-60 | a press opens a fresh window and clears what belonged to the old one |
| `GattRead.LongRead` | RK3588_app/edgeguard-provisioningd/src/gatt_read.c:115-203 | for any legal MTUs in time the read loop ends and yields exactly the bytes captured at begin |
| `GattRead.RequestCount` | RK3588_app/edgeguard-provisioningd/src/gatt_read.c:163-203 | with one MTU it takes floor(len / (mtu - 1)) + 1 requests |
| `GattRead.NeverMixed` | RK3588_app/edgeguard-provisioningd/src/gatt_read.c:150-161 | a response is a slice of the value of this read's own begin, in its lifetime, or an error, whatever else touched the snapshot |
| `GattRead.JoinedIsValue` | RK3588_app/edgeguard-provisioningd/src/gatt_read.c:163-203 | successful responses at running offsets up to a short one join to the value |
| `GattRead.InterleavedRead` | RK3588_app/edgeguard-provisioningd/src/gatt_read.c:163-203 | a client whose requests stand anywhere among other reads, clears and foreign begins, all answered up to a short response, has exactly the value captured at its own begin, read within its lifetime |
| `GattRead.ReadSnapshot.Slice` | RK3588_app/edgeguard-provisioningd/src/gatt_read.c:163-203 | response and remaining snapshot are those of the specification |
| `GattRead.ReadSnapshot.Begin` | RK3588_app/edgeguard-provisioningd/src/gatt_read.c:115-148 | a refused begin clears the snapshot |
| `JsonProofs.AcceptsExactlyLegal` | RK3588_app/edgeguard-remote-ota-agent/src/manifest.c:135-143 | the recogniser accepts exactly the texts that are, within white space, a legal object: RFC 8259 syntax, depth at most 64, distinct NUL-free names, paired surrogates, no NUL in known root strings, plain int64 root sizes |
| `JsonProofs.OneSpelling` | RK3588_app/edgeguard-remote-ota-agent/src/manifest.c:62-134 | a legal text has one syntax tree |
| `Utf8.ValidExactly` | RK3588_app/edgeguard-remote-ota-agent/src/manifest.c:135-143 | a byte string passes as UTF-8 if and only if it is the encoding of Unicode scalar values, surrogates and overlong forms excluded |
| `Utf8.OneDecoding` | RK3588_app/edgeguard-remote-ota-agent/src/manifest.c:135-143 | and of only one sequence of them |
| `JsonProofs.ValueSound` | RK3588_app/edgeguard-remote-ota-agent/src/manifest.c:96-134 | what is read as a value is legal and is exactly the text consumed |
| `JsonProofs.ValueComplete` | RK3588_app/edgeguard-remote-ota-agent/src/manifest.c:96-134 | a legal value followed by a delimiter is read back as itself |
| `JsonProofs.MembersSound` | RK3588_app/edgeguard-remote-ota-agent/src/manifest.c:62-95 | the container loop reads only members with fresh names |
| `JsonProofs.MembersComplete` | RK3588_app/edgeguard-remote-ota-agent/src/manifest.c:62-95 | and reads all legal members |
| `Json.PiecesComplete` | RK3588_app/edgeguard-remote-ota-agent/src/manifest.c:24-55 | a legal string is read back character by character |
| `Json.PiecesSound` | RK3588_app/edgeguard-remote-ota-agent/src/manifest.c:24-55 | what is read as a string is legal, with surrogates paired |
| `Json.NumberSound` | RK3588_app/edgeguard-remote-ota-agent/src/manifest.c:107-124 | what is read as a number is an RFC 8259 number |
| `Json.NumberComplete` | RK3588_app/edgeguard-remote-ota-agent/src/manifest.c:107-124 | every such number before a delimiter is read whole |
| `JsonLex.LoadJson` | RK3588_app/edgeguard-remote-ota-agent/src/manifest.c:135-143 | the cursor-driven scanner answers exactly for the legal texts |
| `JsonLex.Lex.StringToken` | RK3588_app/edgeguard-remote-ota-agent/src/manifest.c:24-55 | the loop consumes the string and yields its decoded bytes and whether it escapes a NUL |
| `JsonLex.Lex.Hex4` | RK3588_app/edgeguard-remote-ota-agent/src/manifest.c:15-23 | four hexadecimal digits and their value |
| `JsonLex.Lex.ContainerToken` | RK3588_app/edgeguard-remote-ota-agent/src/manifest.c:62-95 | recursion and depth counter agree with the specification; the depth is restored on success |
| `JsonLex.Lex.ValueToken` | RK3588_app/edgeguard-remote-ota-agent/src/manifest.c:96-134 | value_token agrees with the specification |
| `JsonLex.CheckInt64` | RK3588_app/edgeguard-remote-ota-agent/src/manifest.c:125-131 | the overflow-guarded loop accepts exactly digit strings of at most INT64_MAX |
| `Range.ParsesSpec` | host_app/artifact_service.py:38-76 | under any limits, a well-formed single range within them selects exactly the bytes it names |
| `Range.OnlySpecs` | host_app/artifact_service.py:38-76 | nothing else selects anything |
| `Range.ExactRangeIsTheTail` | RK3588_app/edgeguard-remote-ota-agent/src/download.c:24-31 | a Content-Range is taken exactly when it spells out the missing tail |
| `Range.ScanDecimal` | RK3588_app/edgeguard-remote-ota-agent/src/download.c:13-23 | the guarded loop never leaves int64 and yields the leading number |
| `Range.EndsAgree` | host_app/main.py:203-256 | for every 0 < p < N <= INT64_MAX the server selects p..N-1 if and only if its configured limits have room for p, and the client recognises its header as APPEND |
| `Range.AlwaysRoom` | host_app/config.py:20-21 | limits of at least 26 characters and 19 digits, such as the defaults, have room for every p |
| `Range.StreamFileRegion` | host_app/artifact_service.py:79-91 | chunks are nonempty, bounded and join to exactly the region, or the file was too short |
| `Range.Resume` | host_app/artifact_service.py:79-91 | the resumed chunks complete the prefix to the file |
| `Download.PartialIsBounded` | RK3588_app/edgeguard-remote-ota-agent/src/download.c:85-164 | for any callbacks the partial file never outgrows the expected size and APPEND keeps its prefix |
| `Download.StaysPrefix` | RK3588_app/edgeguard-remote-ota-agent/src/download.c:85-164 | against an honest, interruptible server the partial file stays a prefix of the artifact |
| `Download.AppendStartsAtPartial` | RK3588_app/edgeguard-remote-ota-agent/src/download.c:32-50 | an APPEND response starts where the partial file ends |
| `Download.CallbackSound` | RK3588_app/edgeguard-remote-ota-agent/src/download.c:85-164 | one callback keeps offset, counters and file contents in step |
| `DownloadProgress.WholeDownload` | RK3588_app/edgeguard-remote-ota-agent/src/download.c:316-397 | progress: with a working disk and a server that sends a 200 status, any other plain fields, an empty line and bodies that join to content of the promised size and hash, the download succeeds with that content, whatever partial file was there |
| `DownloadProgress.ResumedDownload` | RK3588_app/edgeguard-remote-ota-agent/src/download.c:316-397 | so it does with a 206 and the tail missing from a nonempty prefix |
| `DownloadProgress.RestartedDownload` | RK3588_app/edgeguard-remote-ota-agent/src/download.c:349-381 | and with a 416 followed, on the restart, by such a 200 |
| `DownloadProgress.OnTheWire` | RK3588_app/edgeguard-remote-ota-agent/src/download.c:85-145 | the lines HTTP/1.1 200, 206 and 416 are such status lines |
| `DownloadProgress.RangeOnTheWire` | host_app/main.py:203-256 | and the server's own Content-Range field is such a field, for every 0 < p < N <= INT64_MAX |
| `Downloader.Downloads.Body` | RK3588_app/edgeguard-remote-ota-agent/src/download.c:146-164 | the write loop refines the callback specification for any split of writes |
| `Downloader.Downloads.Perform` | RK3588_app/edgeguard-remote-ota-agent/src/download.c:349-363 | callbacks run in order until one refuses |
| `Downloader.Downloads.VerifyFile` | RK3588_app/edgeguard-remote-ota-agent/src/download.c:165-195 | success exactly for the promised size and hash; a mismatch empties the file |
| `Downloader.Downloads.Publish` | RK3588_app/edgeguard-remote-ota-agent/src/download.c:298-315 | the bundle becomes the verified contents or nothing changes |
| `Downloader.Downloads.Obtain` | RK3588_app/edgeguard-remote-ota-agent/src/download.c:316-381 | one transfer and at most one restart leave exactly the content the environment determines, and never touch the bundle |
| `Downloader.Downloads.DownloadBundle` | RK3588_app/edgeguard-remote-ota-agent/src/download.c:316-397 | succeeds if and only if the environment determines it, with exactly the content obtained; the bundle only ever changes to verified content; the partial file stays within size, and a prefix of an honest artifact |
| `Downloader.Downloads.Calls` | RK3588_app/edgeguard-remote-ota-agent/src/download.c:316-397 | the same over any number of calls |
| `Control.HandOff` | RK3588_app/edgeguard-remote-ota-agent/src/control.c:141-172 | in every interleaving granted checks equal returned ones plus the pending flag, and a waiter blocked with a pending check has a byte to read or on its way |
| `Control.AcceptedExactly` | RK3588_app/edgeguard-remote-ota-agent/src/control.c:141-172 | in every interleaving, in terms of its steps alone: a request new to the ring is accepted if and only if the waiter was armed without stopping and no finish, grant or close came since, no granted check is outstanding, and no signal or close stopped the control; then it is pending and a byte is on its way |
| `Control.StepDecides` | RK3588_app/edgeguard-remote-ota-agent/src/control.c:141-348 | what each step does to the fields that decide |
| `Control.NextInv` | RK3588_app/edgeguard-remote-ota-agent/src/control.c:316-348 | every step of either thread keeps conservation, wake-up and ring invariants |
| `Control.SameAnswer` | RK3588_app/edgeguard-remote-ota-agent/src/control.c:141-172 | a repeated request finds its own decision until sixteen newer ones or its expiry |
| `Control.OneLiveEntry` | RK3588_app/edgeguard-remote-ota-agent/src/control.c:141-172 | at most one live entry exists for a request id |
| `Control.Control.CacheDecision` | RK3588_app/edgeguard-remote-ota-agent/src/control.c:141-172 | the lookup loop and the decision agree with the specification (which requests that accepts, AcceptedExactly says) |
| `Control.Control.Collect` | RK3588_app/edgeguard-remote-ota-agent/src/control.c:341-347 | a pending check is handed over once |
| `Store.Store.AtomicWrite` | RK3588_app/edgeguard-provisioningd/src/store.c:200-264 | until the rename nothing changes; after it the complete record is visible; success means durable |
| `Store.Store.ReplaceWifi` | RK3588_app/edgeguard-provisioningd/src/store.c:680-718 | a commit holds the candidate under a generation above every one reported since the file was last absent, and at most INT64_MAX |
| `Store.Store.RestoreAbsence` | RK3588_app/edgeguard-provisioningd/src/store.c:760-782 | success means the record is durably gone |
| `Store.Store.RestoreWifi` | RK3588_app/edgeguard-provisioningd/src/store.c:784-829 | success means the previous content under a higher generation, or absence |
| `Store.Store.ForgetBegin` | RK3588_app/edgeguard-provisioningd/src/store.c:831-877 | success if and only if a readable tombstone stands alone, or wifi.json, readable, becomes it in one synced rename, or there is neither; a refusal changes nothing |
| `Store.Store.ForgetFinish` | RK3588_app/edgeguard-provisioningd/src/store.c:901-923 | success if and only if there is no tombstone or it is durably gone; the record stays as it was |
| `Store.Store.ForgetWifi` | RK3588_app/edgeguard-provisioningd/src/operations.c:398-437 | success if and only if authorised, begun, revoked and finished; then neither record nor tombstone is left; without revocation the tombstone stays, durable, and the record is gone |
| `Store.Store.Reconcile` | RK3588_app/edgeguard-provisioningd/src/operations.c:450-498 | a pending forget is completed if and only if no wifi.json stands beside its tombstone and the calls work; otherwise nothing changes |
| `Store.Store.CrashAndOpen` | RK3588_app/edgeguard-provisioningd/src/store.c:528-561 | after a crash the named files are those of a state since the last directory sync |
| `Store.Store.ApplyWifi` | RK3588_app/edgeguard-provisioningd/src/operations.c:298-367 | the reported change is the one the inputs determine; COMMITTED means the record is durably the candidate, ROLLED_BACK that its content is what it was; NONE over a changed record if and only if the operation is stranded |
| `Store.StrandedWhen` | RK3588_app/edgeguard-provisioningd/src/store.c:760-829 | a failed apply with a roll-back is stranded if and only if, over an absent record, the removal fails before its rename; over a present one, the record cannot be read back, its generation was INT64_MAX - 1, or the rewrite fails before its rename |
| `Store.TopGeneration` | RK3588_app/edgeguard-provisioningd/src/store.c:798-804 | no fault is needed: a codec, a record at INT64_MAX - 1 and an application that report NONE over a changed record |
| `Store.FineApplication` | RK3588_app/edgeguard-provisioningd/src/operations.c:298-367 | with every file operation working, a valid candidate below the top generations is reported COMMITTED if applied or not to be rolled back, else ROLLED_BACK if the previous state could be applied |
| `Store.Store.Live` | RK3588_app/edgeguard-provisioningd/src/store.c:200-264 | in every state of every life wifi.json is absent or one complete record |
| `StoreForget.NeverForgotten` | RK3588_app/edgeguard-provisioningd/src/operations.c:450-475 | that a tombstone gets its forget completed is false: once every state that could survive a crash has wifi.json beside a tombstone, no run of operations and restarts has a forget or a reconciliation succeed |
| `StoreForget.Clash` | RK3588_app/edgeguard-provisioningd/src/operations.c:298-313 | an input: apply a configuration, forget it while ConnMan does not revoke it, apply it again, every file operation working |
| `StoreForget.AlwaysForgettable` | RK3588_app/edgeguard-provisioningd/src/store.c:831-923 | it is true of every caller that applies no configuration beside a tombstone: after any run of operations and restarts a forget with working calls succeeds over what can be read |
| `ShellQuote.QuotedValue` | RK3588_app/edgeguard-remote-ota-agent/src/rauc_adapter.c:182-204 | a value is decoded exactly when it is the single-quote encoding of nonempty, control-free UTF-8 text under 256 bytes, and to that text |
| `ShellQuote.InsideOfEscaped` | RK3588_app/edgeguard-remote-ota-agent/src/rauc_adapter.c:186-199 | the decoder inverts the encoder |
| `ShellQuote.EscapedOfInside` | RK3588_app/edgeguard-remote-ota-agent/src/rauc_adapter.c:186-199 | the encoder inverts the decoder |
| `ShellQuote.BundleIdentity` | RK3588_app/edgeguard-remote-ota-agent/src/rauc_adapter.c:208-229 | an identity is found exactly when each of its three keys is assigned once, by a decodable value |

## Left out

- D-Bus, BlueZ registration, advertising, ConnMan, RAUC, curl, sockets, polling and file metadata: their results are parameters or nondeterministic choices.
- SHA-256: in ProtocolKeys a digest is its preimage, in Downloader it is an arbitrary function; neither computes it.
- json-glib and GUri: Store takes an arbitrary codec that reads a printed record as itself or not at all; status, request and result JSON are opaque byte strings.
- Buffers and tables: the 1024-byte reassembly buffers, the cache ring and file contents are sequences in fields, not arrays; updates are by value.
- Locks and threads: each critical section is one atomic step; Control interleaves them, the provisioning worker appears only where it reads epochs (Security) and where it ends (Daemon).
- Clocks: monotone where a run needs it, and at least ten minutes away from the int64 ceiling.
- Epoch counters: wrap-around is modelled; a run is assumed to hold fewer than 2^64-1 moves.
- Kernel UUIDs: version 4 and fresh; a repeated one is treated as a read failure.
- OTA runs: one process makes at most a given number of loop turns; retry delays, reporting, configuration reload and time sources are not part of this model.
- RK3588_app/edgeguard-remote-ota-agent/src/persistence.c save and load of the record's JSON: a state file holds a record value.
- HonestSender.HonestTransfer: frames on the message's own slot with its id, opcode and length but not its text are not part of the traffic it allows; they end the transfer.
- read_value (main.c:125-162) for the device and status characteristics: their texts are not part of this model; the operation result is.
- Store: the runtime endpoint record (store.c:720-758), which repeats the Wi-Fi record's replacement without a roll-back.
- egp_protocol_cache_result (protocol.c:548-576): not called by the daemon.
- A/B try counting by the boot loader, the command line, mount and path checks of the A/B tool.
- The retryable flag of a failed download, and the lock that keeps two writers of the partial file apart.
- FastAPI routing, logging, manifest service and the 200 and 416 responses of host_app/main.py beyond their status.
- Manifest field validation after the JSON library, apart from what admission needs.
