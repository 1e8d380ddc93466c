# PCAN-mock in Dafny

PCAN-mock is a Windows Forms tool that turns a PEAK PCAN-USB adapter into a
scripted CAN responder. The user picks an adapter and a bus speed and presses
Start. The channel is then initialised, and a background loop reads frames,
shows them in a device window and writes replies. A frame with identifier
0x04904000 is answered with a fixed burst of five frames. Any other frame is
answered with eight random data bytes under its own identifier. Before every
write, identifiers of the form `18A2xxF6` (masked with 0x1FFF00FF) are
rewritten to `18B0F6xx`.

The repository has three variants of the main window, and this project models
the core of all three:

- **MainForm.cs** (`MappedSessions`) binds device ids to handles
  USBBUS1..USBBUS16 through `deviceHandleMap`. It tracks started channels in
  `activeDevices` and `deviceForms`, and remembers a baud rate per device.
- **Program.cs** (`PolledSessions`) lists the handles that answer a
  `GetValue` poll and reconciles the list on every refresh. It keeps started
  channels in `activeDeviceForms`.
- **program.cs** (`SingleChannelSessions`) maps every device to USBBUS1. It
  holds one cancellation source and one device window in fields, and it
  uninitialises USBBUS1..USBBUS8 when the window closes.

The responder and the message construction of `SendCanMessage` are the same
text in all three files. They are modelled once (`CanFrame`, `Responder`).
The monitor loop is modelled as a run over the finite list of `Read` outcomes
it saw before cancellation (`Monitor`). Handles and bus speeds live in
`Channels`, and `Option` lives in `Wrappers`.

The driver's answers are parameters of the operations:

- the `Initialize` and `Uninitialize` statuses are booleans;
- the handles that answer `GetValue` are a set;
- the outcomes of `Read` are the trace;
- the `Write` calls that fail are a set of positions.

The bytes that `Random.NextBytes` draws are a parameter too.

Three consequences of the code as written:

- The rewrite puts the id's middle byte into the low byte of `0x18B0F600`, so
  `0x18A200F6` is written as `0x18B0F600`.
- `0x18A2FF00` is not in the rewrite family, because its low byte is not 0xF6.
- In MainForm.cs a failed `Initialize` keeps the device's new entry in
  `deviceHandleMap` (lines 162-170 run before the `Initialize` call at line
  172). The handle is therefore not released. `MappedSessions.Start` states
  this.

## Model

| member | source | states |
|---|---|---|
| CanFrame.NormaliseType | program.cs:220-228 | the frame type written is EXTENDED exactly when the inbound type has the extended bit, else STANDARD; no other flag bit survives |
| CanFrame.NormaliseTypeIdempotent | Program.cs:304-309 | normalising a normalised type changes nothing |
| Channels.SlotsOrderedAndDistinct | MainForm.cs:369-387 | the handle list is USBBUS1..USBBUS16 ascending, each once, and holds exactly the slot handles |
| Channels.DefaultBaud | MainForm.cs:123-136 | the bus speed selected when the window opens is 500 kBit/s, one of the offered speeds |
| Channels.BaudChoicesComplete | Program.cs:141-154 | every bus speed is offered, and no speed is offered twice |
| Responder.RewriteId | MainForm.cs:332-336 | an id of the 18A2xxF6 family becomes 0x18B0F600 with the id's middle byte in the low byte; any other id is unchanged; the id changes exactly when it is in the family |
| Responder.MaskTestIsFamily | MainForm.cs:332 | the mask-and-compare test is the field-wise family test, and bits 29..31 never affect it |
| Responder.RewriteIdIdempotent | Program.cs:294-298 | a rewritten id is outside the family, so rewriting twice equals rewriting once |
| Responder.RewriteIdExamples | program.cs:214-218 | 0x18A200F6 gives 0x18B0F600, 0x18A2ABF6 and 0x38A2ABF6 give 0x18B0F6AB, while 0x18A2FF00, 0x18A100F6 and the trigger id stay unchanged |
| Responder.SendCanMessage | Program.cs:286-316 | the written message has LEN equal to its eight data bytes, the caller's data and the normalised type; its id differs from the requested one exactly for family ids, and a family id is written as 0x18B0F6 followed by the requested id's middle byte; the written id is a fixpoint of the rewrite |
| Responder.Requests | MainForm.cs:278-316 | the trigger id yields five calls with ids 0x18008040, 0x18018040, 0x18068040, 0x18078040, 0x18088040 and their scripted data bytes, in that order; any other id yields one call carrying the inbound id and the random bytes |
| Responder.Respond | MainForm.cs:276-317 | the trigger is answered by the five scripted frames in order with the normalised inbound type; any other frame by one frame with the rewritten inbound id and the random bytes; every reply is well formed |
| Responder.RespondIgnoresInboundPayload | program.cs:192-206 | the replies depend only on the inbound id, the extended bit of its type and the random bytes, not on its data or length |
| Responder.TriggerBurstUnchangedByRewrite | Program.cs:229-260 | the burst is written with exactly the scripted ids and does not depend on the random bytes |
| Monitor.RunMonitor | MainForm.cs:264-321 | the loop displays exactly what the reference log displays and writes exactly what it writes; a failed write is reported at exactly the positions the driver rejects, and the loop goes on |
| Monitor.WriteReplies | Program.cs:312-315 | the replies of one frame are appended in order to the messages written so far, and failed writes are recorded exactly |
| Monitor.RunLogAppend | program.cs:183-208 | running two pieces of a read trace one after the other equals running their concatenation |
| Monitor.NotOkReadsInvisible | program.cs:188 | a read without a frame neither displays nor writes anything |
| Monitor.RunLogWellFormed | Program.cs:217-271 | every message written over a run has LEN 8, eight data bytes, a STANDARD or EXTENDED type and a rewrite-fixpoint id; one frame is displayed per received frame |
| Monitor.DisplayedAreReceived | Program.cs:221-227 | the frames passed to the device window are exactly the received frames, in order |
| MappedSessions.ScanFrom | MainForm.cs:389-397 | the scan returns an unused slot above its start with every slot below it in use, or nothing when all later slots are used |
| MappedSessions.NextAvailableHandle | MainForm.cs:367-398 | the result is the lowest slot no device is mapped to, and there is none exactly when all sixteen are mapped |
| MappedSessions.StartHandleVersusLookup | MainForm.cs:356-365 | in every state a mapped device starts on the handle the lookup returns; an unmapped device starts on the lowest free slot, which differs from the lookup's USBBUS1 fallback whenever USBBUS1 is taken |
| MappedSessions.Start | MainForm.cs:138-199 | refuses a missing device or baud rate without any change; an unmapped device gets the lowest free slot, or nothing is changed when all are taken; `Initialize` is attempted exactly when a device, a baud rate and a handle are there, and its failure keeps the new mapping; on success the handle becomes active with a window and the baud rate is remembered |
| MappedSessions.Stop | MainForm.cs:201-249 | refuses a missing, unmapped or inactive device without any change, and always reaches `Uninitialize` for a mapped active one; the handle is deactivated whatever `Uninitialize` says; on OK the mapping and window go and the window's closing handler calls `Uninitialize` again |
| MappedSessions.StartedHandleReleasedAtShutdown | MainForm.cs:437-447 | a handle a start activates is uninitialised at closing; after a stop of that device, whatever `Uninitialize` answered, it no longer is and every other active handle still is |
| MappedSessions.StartedBaudIsRecalled | MainForm.cs:424-435 | the rate a device was started with (saved at lines 185-188) is the one shown on its next selection, even after it is stopped |
| MappedSessions.StartPreservesInv | MainForm.cs:161-178 | Start keeps handles distinct per device and within the slots, active handles with windows and windows with mapped devices |
| MappedSessions.StopPreservesInv | MainForm.cs:209-229 | Stop keeps the same invariant |
| MappedSessions.ShutdownReleasesOwnedHandles | MainForm.cs:443-446 | under the invariant each handle uninitialised at closing is a slot held by exactly one device |
| MappedSessions.FailedStopThenStartReusesHandle | MainForm.cs:215-233 | after a failed `Uninitialize` the device keeps its mapping, so its next start uses the same handle |
| MappedSessions.StartStopStartScenario | MainForm.cs:226-228 | start, stop, start of one device yields USBBUS1 each time, and the stop leaves no active handle |
| MappedSessions.ExhaustedMeansAllSlotsMapped | MainForm.cs:389-398 | Start fails for lack of a handle only when all sixteen slots are mapped |
| PolledSessions.KeepPolled | Program.cs:123-129 | the kept entries are exactly the listed ones that answered, still without duplicates |
| PolledSessions.KeepPolledAppend | Program.cs:123-129 | the removal works entry by entry: on a concatenation it is the concatenation of the results, so the kept entries stay in their order |
| PolledSessions.KeepPolledSingle | Program.cs:125-128 | a single entry is kept exactly when it answered |
| PolledSessions.FreshProperties | Program.cs:104-121 | the handles the scan appends are exactly the answering unlisted slots, in ascending order |
| PolledSessions.AddRespondingAppendsFresh | Program.cs:113-119 | the first loop leaves the list as it was and appends exactly those handles |
| PolledSessions.Reconcile | Program.cs:81-129 | after a refresh the list holds exactly the answering slots, and a list without duplicates stays without duplicates |
| PolledSessions.ReconcileOrder | Program.cs:104-129 | the entries that still answer keep their order at the front; after them come newly answering slots, none of them listed before, in ascending order |
| PolledSessions.ReconcileIdempotent | Program.cs:81-121 | refreshing twice with the same answers equals refreshing once |
| PolledSessions.RefreshSelection | Program.cs:131-134 | a still-listed selection is kept; otherwise the first entry is selected when the list is not empty |
| PolledSessions.LoadAvailableDevices | Program.cs:81-139 | the list is the reconciled one, so surviving entries keep their order ahead of newly answering slots in ascending order, and no duplicates appear; it holds exactly the answering slots; a selection that is still listed is kept, otherwise the first entry is selected when the list is not empty, and the selection is always listed; the selected handle, started channels and tokens are untouched |
| PolledSessions.Start | Program.cs:156-182 | nothing happens without a selection; `Initialize` fails or succeeds exactly as its status says once a handle and baud rate are selected; the selected handle is recorded; on OK it gets a window and a newly issued token, not cancelled, that becomes the current one, and token freshness is kept |
| PolledSessions.Stop | Program.cs:184-205 | with a window for the selected handle, `Uninitialize` is called three times, the window goes and the closing handler as written runs; otherwise it is called once; the outcome reports the last call; token freshness is kept |
| PolledSessions.StopIntended | Program.cs:184-205 | the same stop with the corrected closing handler, which cancels the stopped handle's own monitor token |
| PolledSessions.StartedHandleReleasedAtShutdown | Program.cs:318-328 | a started handle is uninitialised at closing until it is stopped |
| PolledSessions.RestartOrphansMonitor | Program.cs:174-175 | starting an already started handle gives it a new token and leaves the old monitor's token uncancelled and unreachable from the handle |
| PolledSessions.CloseForm | Program.cs:276-283 | the closing handler cancels the latest token, not its own, when its own is still live |
| PolledSessions.CloseFormCancelsWrongMonitor | Program.cs:276-283 | with two channels, closing the first window cancels the second monitor and leaves the first one running |
| PolledSessions.StartStartStopScenario | Program.cs:184-194 | after starting USBBUS1 and then USBBUS2, a stop of USBBUS1 as written leaves the first monitor live and cancels the second; the same stop with the corrected handler cancels only the first |
| PolledSessions.CloseFormIntended | Program.cs:276-283 | the corrected handler adds exactly the window's own token to the cancelled ones; every other token, whether a mapped monitor holds it or not, keeps its state |
| PolledSessions.CloseFormIntendedCancelsOwnMonitor | Program.cs:276-283 | in the two-channel case the corrected handler stops the first monitor only |
| SingleChannelSessions.CanHandleFromDeviceId | program.cs:236-241 | every device gets USBBUS1 |
| SingleChannelSessions.PlaceholderMapsAllDevicesTogether | program.cs:236-241 | any two devices are sent to the same channel |
| SingleChannelSessions.ListDevices | program.cs:72-80 | the list holds exactly the non-empty device ids the query returned |
| SingleChannelSessions.ListDevicesAppend | program.cs:73-80 | the entries are made result by result: the list of a concatenation is the concatenation of the lists, so the query's order is kept |
| SingleChannelSessions.ListDevicesSingle | program.cs:75-79 | a single query result gives one entry exactly when it is a non-empty id |
| SingleChannelSessions.FindStringExact | program.cs:84 | the result is the first matching entry, or -1 exactly when no entry matches or there is no previous text |
| SingleChannelSessions.RefreshSelection | program.cs:82-97 | an empty list selects -1; otherwise the first entry matching the previous text is selected, or entry 0 when none matches |
| SingleChannelSessions.Start | program.cs:115-151 | refuses a missing device or baud rate without any change; otherwise USBBUS1 is selected; on OK a newly issued token, not cancelled, and a window appear, and on failure nothing else changes; token freshness is kept |
| SingleChannelSessions.Stop | program.cs:153-173 | the current token is cancelled; without a handle no `Uninitialize` is called and failure is reported; on OK the window is closed and its handler uninitialises again |
| SingleChannelSessions.Shutdown | program.cs:257-276 | USBBUS1..USBBUS8 are uninitialised in ascending order |
| SingleChannelSessions.ShutdownCoversStartedHandle | program.cs:262-272 | the handle a start initialises is among those released at closing, and only slots up to 8 are |
| SingleChannelSessions.StopCancelsLatestMonitor | program.cs:155-158 | the monitor a start launches is live until the next stop, which cancels its token |
| SingleChannelSessions.RestartOrphansMonitor | program.cs:139-140 | a second start replaces the source without cancelling the first, and the next stop does not cancel it either |

## Left out

- Driver calls (`Initialize`, `Uninitialize`, `Read`, `Write`, `GetValue`) are parameters. The numeric values of handles and statuses are abstracted.
- Threads, `Task.Run`, `Invoke` and the timing of cancellation are left out. A monitor is a finite trace of reads, and cancellation is the set of cancelled tokens.
- `Random` is left out. Its eight bytes are a parameter.
- Message boxes, window layout, the timestamp shown by the device windows and their text formatting are left out.
- Left out as I/O: the WMI device query and watchers, the poll timer of Program.cs, and loading or saving AppConfig.
- Dictionary enumeration order at shutdown in MainForm.cs and Program.cs is left out. Those shutdowns are modelled as sets of handles.
- A device window that is disposed or not yet created ignores what it is passed (DeviceForm.cs line 42). The model's display stream is the frames passed to the window, not what it shows.
- MappedSessions.RecallBaud: covers selections and reloads after the window is open, not the first load. The constructor loads the devices (MainForm.cs line 33) before the baud list (line 34), so the recall at lines 107-115 finds no entry and line 135 then selects 500 kBit/s. A device with a saved rate therefore opens showing 500 kBit/s, and starting it at once overwrites the saved rate (line 187).
- In program.cs the monitor loop reads the `deviceForm` field (line 190), not its own window. After a second start the orphaned loop of the first start shows its frames in the newest window. `SingleChannelSessions` does not track which window a monitor writes to.
- The user closing a device window by hand is not modelled. Only closing through Stop is.
- MappedSessions.Start: when all sixteen slots are taken the code throws, and the model returns `NoFreeHandle` with the state unchanged.
- PolledSessions.RefreshSelection: the model assumes, as Windows Forms does, that removing the selected entry clears the selection.
- MainForm.cs's device-list refresh (lines 77-105) is the same code as program.cs's, which `SingleChannelSessions.RefreshSelection` models. Its baud-rate recall on later selections and reloads is `MappedSessions.RecallBaud`.
- MappedSessions.Start: starting a device whose handle is already active makes a new cancellation source and window over the old ones (MainForm.cs lines 177-178 and 259) without cancelling the old source, so the old monitor and window are orphaned. The model keeps only the set of active handles and windows, so it does not show the orphan; `PolledSessions.RestartOrphansMonitor` and `SingleChannelSessions.RestartOrphansMonitor` show the same overwrite in the two other windows.

## Findings

| source | as written | input that shows it | evidently intended | confidence | as-written member | corrected member |
|---|---|---|---|---|---|---|
| Program.cs:276-283 | the device window's closing handler cancels the `cancellationTokenSource` field, the source of the latest start | start USBBUS1, start USBBUS2, then stop USBBUS1: the USBBUS2 monitor is cancelled while the USBBUS1 monitor keeps reading an uninitialised channel | cancel the source whose token this window's monitor polls | not executed | PolledSessions.Stop with PolledSessions.CloseForm (shown by PolledSessions.CloseFormCancelsWrongMonitor and PolledSessions.StartStartStopScenario) | PolledSessions.StopIntended with PolledSessions.CloseFormIntended (proved by PolledSessions.CloseFormIntendedCancelsOwnMonitor and PolledSessions.StartStartStopScenario) |
