# Verification of the ESP Base update, configuration and control core

ESP Base is firmware for a device with two application slots. It streams signed
images over MQTT, records every update operation in a durable receipt, keeps its
configuration in one canonical blob, and executes each authenticated command at
most once per boot. This project models that core in Dafny and proves what it
promises over every run: with power cuts, storage faults, thread interleavings
and an adversarial network.

Check everything with `dafny verify dfyconfig.toml`.

## How the model is organised

- Update protocol: `OtaSlots`, `OtaReceipt`, `OtaProtocol`, `OtaInvariant`,
  `OtaRecovery`, `ReceiptCodec`. One event is one durable step or a run of reads
  between durable steps, and all faults are in the event, so a run is a sequence
  of events and a power cut may stand between any two of them.
- Block stream: `OtaFrame`, `StreamSpec`, `MqttOtaStream`, `StreamRuns`, `Descent`,
  `StreamCompletion`. A class with the fixed block refines an abstract channel;
  the run theorems are about the channel, those about completion over endless
  schedules of calls.
- Storage and Flash ownership: `StorageOwner`, and on top of its claims
  `FlashHandoff`. Atomic steps of any number of threads in every interleaving.
- Configuration: `Utf8`, `ConfigText`, `Bytes`, `Sections`, `ConfigFormat`,
  `ConfigCodec`, `ConfigStruct`, `ConfigMigration`, `ConfigStore`, `RemoteConfig`.
- Control owner: `CommandGuard`, `ControlSpec`, `ControlRuns`, `ControlOwner`, whose
  class invariant is the one of the runs; `ConfigControl` puts it over the
  configuration store and `OtaControl` over the update protocol, across faults and
  restarts.
- OTA frames: `FrameFormat`, `FrameCodec`. Serial lines: `LineSpec`, `LineReader`.
- Capacity bounds: `CapacityBounds`, `CapacityMqtt`, `CapacityHistory`.
- Business events: `Business`, `EventOrder`.

Imperative source files are classes or methods proved against specification
functions; the theorems are lemmas about those functions.

## Assumptions about code outside the repository

- NVS: a successful blob write stores the new value; a failed one leaves the old
  or the new value; a successful read returns what is stored.
- eota: retirement first proves that the source is VALID and selected and touches
  nothing otherwise; it changes only the target slot and reports success only when
  its header is erased and its otadata entry retired; preparation writes only the
  inactive slot and succeeds only for the signed image of the requested digest
  and size; selection marks the prepared slot NEW and selects it in one write,
  which may have happened whatever failure it reports; a confirmation or rejection
  that fails may have been written too, and a failed confirmation may report the
  trial as pending or not.
- Bootloader: a NEW selected slot becomes PENDING_VERIFY; a PENDING_VERIFY slot that
  reboots is aborted and the selector falls back; an image that does not start
  makes the other one start.
- HMAC and SHA-256 are functions of which only determinism and length are used.
- Atomics are sequentially consistent.

## Findings

Two properties one would expect of the code do not hold of it. Each has a concrete
input and the exact condition under which the code does meet it.

- A timely session can stall. If END has been requested and the tail is acknowledged
  before END arrives, the idle deadline moves but the pending request keeps its expiry;
  once that has passed, no frame is ever accepted again and the session can only time
  out (`StreamCompletion.StallHappens`). At any timely moment of any honest session some
  honest calls still end in a selection if and only if the pending request has not run
  out (`StreamCompletion.CompletableExactly`).
- The stack gate does not bound earlier incomplete frames. A log is accepted, and the
  gate passes at its last complete frame, although an earlier incomplete frame reported
  a task with 100 bytes of stack left (`CapacityHistory.StackGateMayFailEarlier`). With
  the gate passed at the end, an earlier frame met it if and only if each of its task
  rows does and it has anything to report (`CapacityHistory.GatesHeldThroughout`).

## Model

| member | source | states |
|---|---|---|
| `OtaInvariant.RunKeeps` | firmware/components/device_protocol/esp_base_protocol.c:539-623 | Every run of boots, recovery, registration, worker, selection, trial and confirmation, with power cut between any two durable steps, stays in one invariant tying receipt, slots, selector and running slot |
| `OtaInvariant.NextBootKeeps` | firmware/apps/esp_base/main/esp_base_main.c:260-456 | Each step of startup, recovery, trial, confirmation and rejection keeps that invariant, whatever a failed confirmation reports |
| `OtaInvariant.NextStartKeeps` | firmware/components/device_protocol/esp_base_protocol.c:759-844 | Registration, storing the intent and creating the worker keep it, also when the intent write fails either way |
| `OtaInvariant.NextWorkerKeeps` | firmware/components/device_protocol/esp_base_protocol.c:539-623 | Every step of the worker, including torn retirement, partial writes and a selection that is written although it reports failure, keeps it |
| `OtaInvariant.NextRecordKeeps` | firmware/components/ota_operation/esp_base_ota_receipt.c:378-414 | Recording a failure keeps it, whether or not the write lands |
| `OtaInvariant.AlwaysBootable` | firmware/components/device_protocol/esp_base_protocol.c:539-623 | In every reachable state some slot holds a confirmed, verified image that the bootloader starts next, or falls back to after the trial it starts next is cut |
| `OtaInvariant.OnlyTheNamedTargetChanges` | firmware/components/device_protocol/esp_base_protocol.c:559-623 | In every run the image and the otadata entry of a slot change only while a durable PREPARED receipt names it; the running slot only by its own confirmation or rejection, never its image; and the selector moves only with a PREPARED receipt |
| `OtaInvariant.ReceiptMovesOnProof` | firmware/components/ota_operation/esp_base_ota_receipt.c:277-441 | The retained receipt changes only from PREPARED to FAILED with the source running and the target as registered or erased, from PREPARED to SUCCEEDED with the candidate running and confirmed, or to a new intent after a terminal proved again |
| `OtaInvariant.TerminalIsFinal` | firmware/components/ota_operation/esp_base_ota_receipt.c:321-441 | As long as one operation is retained nothing of its receipt but the status changes, and its FAILED or SUCCEEDED never does, so no request under its ID starts again |
| `OtaRecovery.EveryCrashResolves` | firmware/apps/esp_base/main/esp_base_main.c:192-258 | From every reachable crash state one fault-free boot, and a second exactly when the trial is rejected, ends a PREPARED operation: SUCCEEDED with the candidate running and VALID if and only if the candidate wins, FAILED with the source running otherwise |
| `OtaRecovery.QuietBootChangesNothing` | firmware/apps/esp_base/main/esp_base_main.c:192-258 | From every reachable state without a PREPARED receipt one fault-free boot changes nothing durable, runs the selected image, and is ready if and only if a terminal is retained or the whole firmware set is observable |
| `OtaRecovery.NewDeviceServesExactly` | firmware/apps/esp_base/main/esp_base_main.c:201-206 | A newly assembled device can ever become ready if and only if its other slot is VALID and verified, or retired and erased; otherwise no run changes anything durable |
| `OtaRecovery.ReadyAdmitsTheNext` | firmware/components/ota_operation/esp_base_ota_receipt.c:277-376 | A ready device admits any fresh legal operation for another image, with the running image as its recorded source |
| `OtaRecovery.GoodUpdateSucceeds` | firmware/components/device_protocol/esp_base_protocol.c:539-623 | A fault-free update from any ready state ends with the candidate running, confirmed and recorded as SUCCEEDED |
| `OtaRecovery.ReadyIsTerminal` | firmware/components/ota_operation/esp_base_ota_receipt.c:191-234 | Whenever the device is ready the retained operation evaluates to exactly its recorded terminal |
| `ReceiptCodec.Encode` | firmware/components/ota_operation/esp_base_ota_receipt.c:84-99 | The 182-byte buffer receives the record field by field |
| `ReceiptCodec.DecodeEncode` | firmware/components/ota_operation/esp_base_ota_receipt.c:84-133 | An encoded record is read back if and only if it is valid, and then unchanged |
| `ReceiptCodec.EncodeDecode` | firmware/components/ota_operation/esp_base_ota_receipt.c:101-133 | Every accepted receipt blob is the encoding of its record |
| `MqttOtaStream.Stream.Begin` | firmware/components/device_protocol/mqtt_ota_stream.c:17-26 | Starts a session exactly for a closed stream, a nonzero size and consistent timeouts whose deadline does not overflow; otherwise changes nothing |
| `MqttOtaStream.Stream.RequestBlock` | firmware/components/device_protocol/mqtt_ota_stream.c:28-47 | Hands out the one pending request, only while the mailbox is empty and earlier blocks are acknowledged |
| `MqttOtaStream.Stream.Offer` | firmware/components/device_protocol/mqtt_ota_stream.c:55-92 | Classifies a frame as ignored, duplicate, conflicting, cancelling or accepted and copies an accepted block into the fixed buffer |
| `MqttOtaStream.Stream.Read` | firmware/components/device_protocol/mqtt_ota_stream.c:94-106 | Moves the next buffered bytes to the worker, in order, through the cursor into the fixed block |
| `MqttOtaStream.Stream.Written` | firmware/components/device_protocol/mqtt_ota_stream.c:108-123 | Advances the acknowledged offset within what was read and extends the idle deadline without passing the total one |
| `MqttOtaStream.Stream.Select` | firmware/components/device_protocol/mqtt_ota_stream.c:125-131 | Closes the stream for selection only at its acknowledged end |
| `MqttOtaStream.Stream.Close` | firmware/components/device_protocol/mqtt_ota_stream.c:133-138 | Returns the stream to its closed state |
| `StreamRuns.BeginStarts` | firmware/components/device_protocol/mqtt_ota_stream.c:17-26 | A successful begin yields a fresh session of the given size; a failed one leaves the stream as it was |
| `StreamRuns.SessionInv` | firmware/components/device_protocol/mqtt_ota_stream.c:28-131 | One invariant over offsets, mailbox, deadlines, delivered bytes and accepted blocks holds in every session |
| `StreamRuns.PrefixAlways` | firmware/components/device_protocol/mqtt_ota_stream.c:28-106 | Under loss, duplication and reordering the worker always holds exactly image[..read_offset]; accepted blocks tile the image in 1024-byte steps, none twice |
| `StreamRuns.Backpressure` | firmware/components/device_protocol/mqtt_ota_stream.c:28-47 | Accepted but unacknowledged bytes never exceed 1024 |
| `StreamRuns.FinalForever` | firmware/components/device_protocol/mqtt_ota_stream.c:6-15 | After selection or the first error every later call is refused and changes nothing, the recorded error included |
| `StreamRuns.CancelCount` | firmware/components/device_protocol/mqtt_ota_stream.c:68-73 | In every session CANCEL is accepted at most once, exactly when the recorded error says so, and then the session is final |
| `StreamRuns.EndCount` | firmware/components/device_protocol/mqtt_ota_stream.c:76-78 | END is accepted at most once, exactly when the stream is ended |
| `StreamRuns.SelectOnlyAtTheEnd` | firmware/components/device_protocol/mqtt_ota_stream.c:125-131 | Selection succeeds only when END was accepted and delivered, accepted and acknowledged bytes are the whole image |
| `StreamRuns.RequestStable` | firmware/components/device_protocol/mqtt_ota_stream.c:36-47 | Over any run a pending request stays, and is handed out, unchanged until an answer to it is accepted |
| `StreamRuns.DeadlinesOverRuns` | firmware/components/device_protocol/mqtt_ota_stream.c:108-123 | Between any two moments of a session the total deadline is constant, the idle deadline never recedes nor passes it, and moves only with a strict increase of the acknowledged offset |
| `StreamCompletion.ShapeAtSelection` | firmware/components/device_protocol/mqtt_ota_stream.c:55-131 | Any selection comes after exactly ceil(size/1024) DATA frames and one END |
| `StreamCompletion.CourteousExactly` | firmware/components/device_protocol/mqtt_ota_stream.c:6-123 | A call on an open session latches an error if and only if it is late, contradicts or cancels the current answer, or acknowledges outside what was read |
| `StreamCompletion.LeftStep` | firmware/components/device_protocol/mqtt_ota_stream.c:28-123 | A courteous call never adds outstanding work, and takes some away exactly if it makes a request, accepts an answer, reads bytes or acknowledges more |
| `StreamCompletion.FairSessionCompletes` | firmware/components/device_protocol/mqtt_ota_stream.c:28-131 | Every endless schedule of authentic, courteous calls in which outstanding work is served in the end, with any repeated requests, waiting reads, duplicates and partial acknowledgements in between, completes for every image of 1 to 2^32-1 bytes: selection succeeds, the image is delivered, after exactly ceil(size/1024) DATA frames and one END |
| `StreamCompletion.ObligingIsFair` | firmware/components/device_protocol/mqtt_ota_transfer.c:28-76 | If whoever owes the next move makes it at some later call (the worker reads and acknowledges, the control task requests, the sender answers before expiry), outstanding work is always served in the end |
| `StreamCompletion.ObligingSessionCompletes` | firmware/components/device_protocol/mqtt_ota_stream.c:28-131 | So every session of such parties completes with the image delivered, whatever courteous calls come in between |
| `StreamCompletion.CompletesWithin` | firmware/components/device_protocol/mqtt_ota_stream.c:28-131 | With a helpful call among any w successive ones it is complete after w calls per byte read, byte acknowledged, request and answer |
| `StreamCompletion.CompletableExactly` | firmware/components/device_protocol/mqtt_ota_stream.c:28-131 | At any timely moment of any honest session some honest calls from then on end in a selection if and only if the pending request has not run out |
| `StreamCompletion.OverdueNeverEnds` | firmware/components/device_protocol/mqtt_ota_stream.c:55-78 | A stalled session is never ended or selected, whatever is called |
| `StreamCompletion.StallHappens` | firmware/components/device_protocol/mqtt_ota_stream.c:36-45 | A concrete session of timely calls that stalls with the whole image delivered and acknowledged |
| `StreamCompletion.EverySizeCompletes` | firmware/components/device_protocol/mqtt_ota_stream.c:28-131 | For every image and any tags a session exists that ends in a selection |
| `StreamCompletion.TimeoutIsReal` | firmware/components/device_protocol/mqtt_ota_transfer.c:10-42 | With times taken inside the lock, a latched timeout means that a deadline had passed |
| `StorageOwner.TryClaim` | firmware/components/ota_operation/esp_base_storage_owner.c:14-37 | Succeeds exactly for an empty claim on an idle owner with tokens left, with a fresh token; otherwise changes nothing |
| `StorageOwner.Release` | firmware/components/ota_operation/esp_base_storage_owner.c:39-52 | Succeeds exactly for the active claim and clears it; otherwise changes nothing |
| `StorageOwner.RunKeeps` | firmware/components/ota_operation/esp_base_storage_owner.c:14-60 | In every interleaving of atomic steps at most one thread is numbering a claim and no claim is ahead of the counter |
| `StorageOwner.TokensAreFresh` | firmware/components/ota_operation/esp_base_storage_owner.c:14-37 | Published tokens are strictly increasing, never 0 and never UINT_MAX, and the active token is the last published |
| `StorageOwner.StaleNeverReleases` | firmware/components/ota_operation/esp_base_storage_owner.c:39-52 | A copied claim that is no longer active never releases a later one |
| `StorageOwner.UninterruptedClaim` | firmware/components/ota_operation/esp_base_storage_owner.c:14-37 | Without interference the atomic steps are the sequential claim |
| `FlashHandoff.OneHolder` | firmware/apps/esp_base/main/esp_base_main.c:69-100 | In every interleaving one thread owns the Flash, and while an OTA thread holds it the shared handoff is the live token |
| `FlashHandoff.HandoffNeverOverwritten` | firmware/apps/esp_base/main/esp_base_main.c:82-100 | No release is refused; only the current owner writes the handoff, once from empty and once back |
| `Utf8.CheckIsText` | firmware/components/remote_config/config_codec.c:25-46 | Reading from the front accepts exactly the RFC 3629 encodings of admitted code points |
| `Utf8.Valid` | firmware/components/remote_config/config_codec.c:25-46 | The checking loop decides that |
| `ConfigText.HostnameValid` | firmware/components/remote_config/config_codec.c:73-89 | Accepts exactly the names whose dot-separated labels are all legal |
| `ConfigText.Contains` | firmware/components/remote_config/config_codec.c:91-97 | Finds a text if and only if it occurs |
| `ConfigText.PemValid` | firmware/components/remote_config/config_codec.c:119-128 | Accepts exactly nonempty printable text with both certificate markers |
| `ConfigText.SecretValid` | firmware/components/remote_config/config_codec.c:53-61 | Accepts exactly 8 to 63 printable characters or 64 hexadecimal digits |
| `ConfigText.TextLength` | firmware/components/remote_config/config_codec.c:17-23 | Yields the one NUL-free text an array is the zero padding of, or none if there is none |
| `ConfigStruct.StructValid` | firmware/components/remote_config/config_codec.c:150-164 | Accepts exactly the structures whose fixed arrays hold the terminated, zero-padded texts of a valid configuration |
| `ConfigStruct.ValidHasStruct` | firmware/components/remote_config/config_codec.c:17-23 | Every valid configuration has a structure that holds it and no other |
| `ConfigCodec.Encode` | firmware/components/remote_config/config_codec.c:177-208 | Fills the buffer with the canonical encoding exactly for valid values; otherwise writes nothing |
| `ConfigCodec.DecodeConfig` | firmware/components/remote_config/config_codec.c:210-266 | Accepts exactly the well-formed blobs, yields their values, and leaves the output alone on failure |
| `ConfigCodec.RetireLegacy` | firmware/components/remote_config/config_codec.c:268-281 | In place: the result is the canonical encoding of what the blob meant and the tail is wiped; on failure nothing changes |
| `ConfigFormat.ValidIsSized` | firmware/components/remote_config/config_codec.c:177-208 | Valid values encode to at most 4901 bytes |
| `ConfigFormat.DecodeEncode` | firmware/components/remote_config/config_codec.c:177-266 | decode(encode(c)) = c for every valid configuration |
| `ConfigFormat.EncodingAcceptedIffValid` | firmware/components/remote_config/config_codec.c:210-261 | The strict decoder accepts an encoding if and only if its values are valid |
| `ConfigFormat.EncodeDecode` | firmware/components/remote_config/config_codec.c:177-266 | Every accepted canonical blob re-encodes to itself |
| `ConfigFormat.DecodeInjective` | firmware/components/remote_config/config_codec.c:210-266 | Two accepted canonical blobs with the same meaning are the same bytes |
| `ConfigFormat.CanonicalIsLegacy` | firmware/components/remote_config/config_codec.c:210-261 | The strict format is the historical one without the retired section, with the same meaning |
| `ConfigFormat.RetireKeepsMeaning` | firmware/components/remote_config/config_codec.c:268-281 | Retirement yields a canonical blob of the same revision, Wi-Fi and MQTT values and is the identity on canonical blobs |
| `ConfigMigration.ToolRulesAreFirmwareRules` | tools/device_control.py:285-343 | The host rules over code points and labels admit exactly the values the firmware admits |
| `ConfigMigration.V1Preserved` | tools/preflight_v3_migration.py:456-464 | A framed v1 blob is valid if and only if the firmware accepts its conversion, and then with the same revision and Wi-Fi values |
| `ConfigMigration.V2Preserved` | tools/preflight_v3_migration.py:292-343 | A v2 blob is valid if and only if the firmware accepts its conversion, and then with the same values |
| `ConfigMigration.MissingBlobMigratesToDefault` | tools/preflight_v3_migration.py:487-492 | A missing blob migrates to the default configuration |
| `RemoteConfig.Store.ReadBytes` | firmware/components/remote_config/esp_base_remote_config.c:84-103 | Reports an absent key, an error or a wrong size, or copies exactly the stored bytes |
| `RemoteConfig.Store.Retire` | firmware/components/remote_config/esp_base_remote_config.c:113-133 | Rewrites a historical record once, only after the strict legacy decoder accepted it, and reports doubt whenever a write was attempted and not proved |
| `RemoteConfig.Store.Load` | firmware/components/remote_config/esp_base_remote_config.c:135-150 | Loads, retiring a historical record first; the caller's structure changes only on success |
| `RemoteConfig.Store.CommitVerified` | firmware/components/remote_config/esp_base_remote_config.c:162-199 | Compare-and-swap on the revision with readback; the committed structure changes only on OK and the work structure keeps nothing |
| `RemoteConfig.Store.Serve` | firmware/components/remote_config/esp_base_remote_config.c:113-199 | Over any sequence of loads and commits with faults the stored bytes go through the run of the store and stay absent or acceptable |
| `ConfigStore.ViewIsFaithful` | firmware/components/remote_config/esp_base_remote_config.c:135-150 | The abstract store determines the stored bytes |
| `ConfigStore.LoadKeepsMeaning` | firmware/components/remote_config/esp_base_remote_config.c:113-150 | A load never changes what the store means, whatever fails; OK reports that meaning |
| `ConfigStore.DamagedStoreIsNotTouched` | firmware/components/remote_config/esp_base_remote_config.c:135-150 | A store that is not valid is reported and never overwritten |
| `ConfigStore.CommitKeeps` | firmware/components/remote_config/esp_base_remote_config.c:162-199 | A commit leaves the meaning or replaces it by the candidate at the next revision; OK means the latter; results other than OK and UNCERTAIN mean the former |
| `ConfigStore.FaultlessCommit` | firmware/components/remote_config/esp_base_remote_config.c:162-199 | Without faults a commit succeeds if and only if the candidate is valid and its revision is the stored one and not the last |
| `ConfigStore.HistoryIsAChain` | firmware/components/remote_config/esp_base_remote_config.c:113-199 | Over every sequence of loads and commits with faults the store stays valid and its history is a chain of revisions exactly one apart |
| `ConfigStore.StepIsALink` | firmware/components/remote_config/esp_base_remote_config.c:162-199 | Each link of that chain is a submitted candidate whose expected revision was the stored one |
| `ConfigStore.NoLostUpdate` | firmware/components/remote_config/esp_base_remote_config.c:162-199 | After an acknowledged commit against a revision no later commit against it is acknowledged |
| `ConfigStore.StoredBytesStayAdmissible` | firmware/components/remote_config/esp_base_remote_config.c:113-199 | From an absent blob or one the historical decoder accepts, every run leaves such bytes |
| `CommandGuard.IsUuid` | firmware/components/device_protocol/command_guard.c:5-15 | Accepts exactly the lower-case version 4 UUIDs |
| `CommandGuard.Guard.Admit` | firmware/components/device_protocol/command_guard.c:17-45 | The scan returns the source's decision in its order of tests, appends exactly on acceptance and never evicts |
| `CommandGuard.AdmitKeepsDistinct` | firmware/components/device_protocol/command_guard.c:17-45 | Admission keeps at most 32 entries with distinct request IDs; an accepted deadline is ahead by at most 30 seconds |
| `CommandGuard.AcceptedOnce` | firmware/components/device_protocol/command_guard.c:24-32 | Whatever else is admitted later, an accepted request is answered from its own slot for the rest of the boot and any other content under its ID is a conflict |
| `ControlOwner.Owner.HandleCommandLine` | firmware/components/device_protocol/esp_base_protocol.c:691-883 | Whatever command arrives, the object keeps the invariant of all runs and the step rules; a known request ID changes nothing |
| `ControlOwner.Owner.RestartWriteError` | firmware/components/device_protocol/esp_base_protocol.c:351-359 | Writing is allowed exactly when no OTA, trial, restart or doubt is present; otherwise the answer names the one that is, whatever the order of the tests |
| `ControlOwner.Owner.PollConfiguration` | firmware/components/device_protocol/esp_base_protocol.c:432-498 | Keeps the invariant and the step rules; at its deadline a trial has a final answer and the configuration in use is unchanged |
| `ControlOwner.Owner.PollOta` | firmware/components/device_protocol/esp_base_protocol.c:625-683 | Keeps the invariant and the step rules; a worker that has ended leaves a final answer or a restart |
| `ControlOwner.Owner.PollMqttRestart` | firmware/components/device_protocol/esp_base_protocol.c:363-374 | Not before 100 ms, and at the first poll from 2000 ms on in any case, the device restarts; never while anything is in doubt |
| `ControlOwner.Owner.Serve` | firmware/components/device_protocol/esp_base_protocol.c:996-1034 | Any sequence of commands, polls, worker completions and outside claims takes the object through exactly the run of the transition system, keeps every answer and executes nothing but business actions once in doubt |
| `ControlRuns.BootIsSafe` | firmware/components/device_protocol/esp_base_protocol.c:625-883 | In every run of a boot: trial and OTA are never both active, the active OTA owns its request, its open answer, the gate and the storage transaction, every admitted request has an answer, and nothing is active while state is in doubt |
| `ControlRuns.NextKeeps` | firmware/components/device_protocol/esp_base_protocol.c:432-883 | Every handler, poll, worker completion and outside claim keeps that invariant and the step rules |
| `ControlRuns.RunKeepsAnswers` | firmware/components/device_protocol/esp_base_protocol.c:330-342 | Over any run history only grows, a final answer never changes and doubt is never cleared |
| `ControlRuns.DoubtBlocks` | firmware/components/device_protocol/esp_base_protocol.c:351-359 | Once state is in doubt no run executes an ota.start, config.set or restart, and the device does not restart itself |
| `ControlRuns.ReplayChangesNothing` | firmware/components/device_protocol/esp_base_protocol.c:738-746 | Whatever arrives under an admitted request ID leaves the control state unchanged and finds an answer |
| `ControlRuns.NoRequestRunsTwice` | firmware/components/device_protocol/esp_base_protocol.c:738-746 | The log of executed actions never names a request ID twice |
| `ControlRuns.RestartsExactlyWhenDue` | firmware/components/device_protocol/esp_base_protocol.c:363-374 | Over any run with a restart pending the device restarts if and only if some poll is due, and until then only business actions are executed |
| `ControlRuns.TrialEndsByDeadline` | firmware/components/device_protocol/esp_base_protocol.c:432-498 | In any run in which a trial is polled at or after its deadline it has a final answer from then on |
| `ControlRuns.UpdateEnds` | firmware/components/device_protocol/esp_base_protocol.c:625-683 | In any run in which the worker ends and is polled the update has a final answer or the device restarts |
| `ConfigControl.ConfigInUseIsStored` | firmware/components/device_protocol/esp_base_protocol.c:461-491 | Over every run of commands, trials, faulty commits, reloads, updates and restarts, while the configuration is not in doubt the one in use is exactly the valid one a boot would load |
| `ConfigControl.AnswerTellsTheStore` | firmware/components/device_protocol/esp_base_protocol.c:461-491 | In every reachable state, succeeded means that the store holds the candidate at the next revision, failed that it means what it meant before |
| `OtaControl.RunKeeps` | firmware/components/device_protocol/esp_base_protocol.c:539-844 | Startup, commands, registration, worker, polls and power cuts between any two durable steps keep one invariant that ties the control fields to the program point and the receipt of the update |
| `OtaControl.DeviceRuns` | firmware/components/device_protocol/esp_base_protocol.c:539-844 | Every run of the composed device is a run of the update protocol, so all that holds of the protocol holds of it |
| `OtaControl.AnswersTellTheReceipt` | firmware/components/device_protocol/esp_base_protocol.c:625-683 | In every reachable state, whatever comes next: an accepted update is the durable PREPARED intent of that request; a failed answer with a code means that its receipt is FAILED with that code, its source confirmed and running and its target as registered or erased; a refused store wrote nothing; every other end is in doubt; and the poll restarts only into the selected candidate |
| `OtaControl.TransactionCoversTheUpdate` | firmware/components/device_protocol/esp_base_protocol.c:785-817 | In every reachable state app_main or the update holds the storage transaction, or the update protocol is at rest with nothing PREPARED |
| `OtaControl.BootDoubtIsStageDoubt` | firmware/components/device_protocol/esp_base_protocol.c:652-654 | No worker ends with an unknown boot state without being in doubt about its stage, so this branch of the poll is never taken |
| `OtaControl.NextUpdateIsTaken` | firmware/components/device_protocol/esp_base_protocol.c:759-844 | In every reachable state an ota.start that passes the tests before registration, for a fresh operation, is accepted and running after its three fault-free steps |
| `FrameCodec.PutBe` | firmware/components/device_protocol/mqtt_ota.c:24-28 | Writes the big-endian digits of a number |
| `FrameCodec.GetBe` | firmware/components/device_protocol/mqtt_ota.c:30-35 | Reads them back within 64 bits |
| `FrameCodec.Encode` | firmware/components/device_protocol/mqtt_ota.c:37-64 | Writes the authenticated payload exactly for valid frames, identities and capacity; reports length 0 otherwise |
| `FrameCodec.Decode` | firmware/components/device_protocol/mqtt_ota.c:66-99 | The cursor-driven decoder yields the frame of the payload or nothing |
| `FrameFormat.DecodeEncode` | firmware/components/device_protocol/mqtt_ota.c:11-99 | With any HMAC, decoding inverts encoding for every valid frame sent in its direction |
| `FrameFormat.EncodeDecode` | firmware/components/device_protocol/mqtt_ota.c:66-99 | Every accepted payload is exactly the encoding of the frame it decodes to |
| `FrameFormat.DecodeInjective` | firmware/components/device_protocol/mqtt_ota.c:66-99 | Distinct accepted payloads never decode to the same frame |
| `LineReader.Reader.Feed` | firmware/components/device_protocol/command_decoder.c:341-379 | The growing buffer delivers, for any chunk and allocation outcome, what the byte-wise specification says, with every index in bounds |
| `LineReader.Reader.Grow` | firmware/components/device_protocol/command_decoder.c:360-375 | Growing keeps the collected bytes and doubles the capacity up to the limit |
| `LineReader.SerialInput.Feed` | firmware/components/device_protocol/esp_base_protocol.c:921-951 | The same for the input whose reader exists only while a line arrives |
| `LineReader.ReadSerial` | firmware/components/device_protocol/esp_base_protocol.c:921-951 | However the stream is cut into chunks and whichever allocations fail, the deliveries are the judged lines of the stream split at LF |
| `LineReader.ReadPersistent` | firmware/components/device_protocol/command_decoder.c:341-379 | One persistent reader delivers the same for any chunks |
| `LineReader.ReadBoth` | firmware/components/device_protocol/esp_base_protocol.c:921-951 | For one stream cut differently for the two, lazy and persistent reader deliver the same lines |
| `LineSpec.DeliveredLinesAreSane` | firmware/components/device_protocol/command_decoder.c:341-379 | Every delivered line has 1 to 9216 bytes and neither NUL nor LF |
| `LineSpec.LineByLine` | firmware/components/device_protocol/command_decoder.c:341-379 | A further complete line adds exactly its own verdict: delivered, silent when empty, or reported once |
| `LineSpec.FeedIsSplit` | firmware/components/device_protocol/command_decoder.c:341-379 | Reading byte by byte is splitting at LF |
| `LineSpec.RoomStep` | firmware/components/device_protocol/command_decoder.c:360-362 | The doubling policy is the stated capacity function |
| `CapacityBounds.Frame.EmitRegion` | firmware/components/device_protocol/esp_base_capacity.c:44-60 | The frame holds the exact sum and maximum of every domain whose sum fits and is valid if and only if all fit |
| `CapacityBounds.BoundsHoldAtEveryInstant` | firmware/components/device_protocol/esp_base_capacity.c:44-60 | For any region histories the sum and the maximum of the minima bound the free bytes and the largest block of the domain at every instant |
| `CapacityHistory.Analyze` | tools/analyze_capacity.py:511-593 | The frame loop accepts exactly the logs whose frames are each consistent and continue one another, MQTT rows and name widths included, and evaluates the gates at the last complete frame |
| `CapacityHistory.StepLowersBounds` | tools/analyze_capacity.py:247-276 | One accepted step never raises a domain bound |
| `CapacityHistory.BoundsNeverRise` | tools/analyze_capacity.py:213-276 | In an accepted log of any length the bounds of every domain never rise |
| `CapacityHistory.StackNeverRises` | tools/analyze_capacity.py:279-293 | Over complete snapshots the stack minimum never rises |
| `CapacityHistory.GatesHeldThroughout` | tools/analyze_capacity.py:590-593 | A heap gate passed at the last complete frame held at every earlier one; the stack gate held at every earlier complete one, and at an earlier frame if and only if its own task rows pass it |
| `CapacityHistory.StackGateMayFailEarlier` | tools/analyze_capacity.py:279-293 | An accepted log that passes the stack gate although an earlier incomplete frame is below it |
| `CapacityHistory.MqttNeverFalls` | tools/analyze_capacity.py:140-169 | In an accepted log no MQTT instance comes back, and within one instance counters and the ranked peak never fall |
| `CapacityHistory.OneNameWidth` | tools/analyze_capacity.py:560-564 | All task names of an accepted log have one width |
| `CapacityHistory.RetiredStaysAway` | tools/analyze_capacity.py:279-293 | A retired task instance is in no later complete snapshot |
| `Business.Counter.PollWindow` | firmware/components/native_business/esp_base_business.c:11-18 | Closes the window at its deadline |
| `Business.Counter.HandleEvent` | firmware/components/native_business/esp_base_business.c:20-50 | Executes one event as specified and keeps the invariant |
| `Business.StepKeeps` | firmware/components/native_business/esp_base_business.c:11-50 | The window is open exactly when its deadline is nonzero, and then lies ahead |
| `Business.CountIsSumOfBodies` | firmware/components/native_business/esp_base_business.c:20-50 | Over every run the counter is the sum of the bodies reported as counted and at most INT32_MAX |
| `Business.CountRefused` | firmware/components/native_business/esp_base_business.c:23-36 | A count is refused exactly when empty, too long, paused, overflowing or without room for a deadline |
| `EventOrder.Owner.Configure` | firmware/components/device_protocol/mqtt_owner.c:141-142 | The sequence restarts only for a different boot ID |
| `EventOrder.Owner.OnMessage` | firmware/components/device_protocol/mqtt_owner.c:237-247 | Consumes exactly the next numbered authentic event of this boot and executes it once |
| `EventOrder.ConsumedInOrder` | firmware/components/device_protocol/mqtt_owner.c:237-247 | Under duplication, reordering and foreign messages the events consumed since the boot ID changed are exactly 1..n in order |
| `EventOrder.OneBootConsumesInOrder` | firmware/components/device_protocol/esp_base_protocol.c:907-919 | Within one boot the whole log is 1..n and every entry came from a delivered message |
| `EventOrder.NoDuplicate` | firmware/components/device_protocol/mqtt_owner.c:237-247 | A consumed message is never consumed again in its boot |

## Left out

- The update protocol is modelled on values as a transition system, not as objects updated in place: app_main, ota_task and the receipt functions share no mutable structure in the model beyond the durable state and a program counter.
- Slot addresses, sizes and partition geometry, and the comparison of repeated slot observations: slots are two names, and the transaction claim makes repeated observations agree.
- Device ID and UUID syntax inside the update protocol: operations and digests are numbers there; the receipt codec has the syntax.
- The prepared-candidate mode of the firmware-set observation, which no caller uses, and the build without signing support.
- Failure codes of the update library are opaque in the protocol; ReceiptCodec takes the two numbers it needs as parameters.
- The lock of mqtt_ota_transfer.c and its timed retry loop; only its order of clock reads is used, by StreamCompletion.TimeoutIsReal.
- Memory ordering of the atomics and volatile wiping of secrets.
- JSON parsing, result formatting and fingerprints: a command arrives parsed, and the fingerprint is part of the request.
- The doubt that reply_firmware sets when its release fails is in ControlSpec.ReplyFirmware but unreachable there: the query releases its own claim, and FlashHandoff.HandoffNeverOverwritten shows that no such release is refused.
- OtaControl applies the effects of an ota.start and of a recording poll on the control fields when the handler ends; the steps inside them are those of the update protocol, and no other handler runs in between.
- The Flash claim around configuration commits appears in the control owner as two answers, claimed and released; its interleavings are in FlashHandoff.
- expire_serial_input, which discards a line after two silent seconds.
- Authentication and parsing of business events (mqtt_event.c): a message arrives as authentic or not, with boot, number and body.
- Line parsing, request evidence and file handling of analyze_capacity.py; the test that the sorted regions do not overlap is stated as pairwise disjointness.
- Task rows, uptime digits and counters printed by esp_base_capacity.c.
- Page parsing, backups and file output of preflight_v3_migration.py, and its receipt audit.
- Wi-Fi, time, identity and safety runtimes, serial drivers, console setup, build, packaging and signing tools: SDK and file I/O with little logic of their own.
- A power cut inside a configuration commit is the commit that fails at that write; nothing else of it is durable.
