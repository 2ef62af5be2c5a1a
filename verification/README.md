# Pyrinas firmware: a verified model

Pyrinas is Zephyr firmware for Bluetooth and cellular devices. This project models the parts of it that carry state
from one callback to the next, and proves what those parts keep over every run.

- **H:4 reception** (`H4Stream`, `HciUart`, `DebugEvent`): an interrupt routine rebuilds HCI packets from whatever pieces
  the UART FIFO hands out; an assertion handler reports a file name and line as a vendor event.
- **Serial link** (`Framing`, `RingBuffer`, `Comms`): a thread cuts ring-buffer chunks into length-prefixed messages; a
  transmit path chains ring-buffer claims and completions.
- **Cloud client** (`Version`, `CloudProtocol`, `CloudHistory`, `PyrinasCloud`, `Topics`, `Watchdog`): firmware updates, the
  first check for one, reconnection, topic routing and watchdog feeding, over all interleavings of threads, work items
  and events.
- **Bluetooth central** (`BleProtocol`, `BleCentral`): connection slots with bounded send queues and broadcast writes.
- **Subscriptions** (`Subscriptions`): a bounded table of named handlers and the event queue it serves.

Components that the source updates in place are classes whose methods are proved against a specification: a function on
streams (`H4Stream`, `Framing`), a map (`Subscriptions`), or the step function of a state machine (`CloudProtocol`,
`BleProtocol`). The properties are then proved of the specification for every stream, chunking, run or interleaving. Each
callback, interrupt body, work item and loop turn is one atomic step, and the environment chooses the next one.

Kernel and driver objects enter by contract. The UART FIFO returns any number of the octets still to come, and nothing
at all finitely often. A ring buffer is a bounded queue whose front can be claimed and then freed. `bt_buf_get_tx` may
refuse, and its buffers hold at least a header. An idle UART accepts a transfer and a busy one refuses it. The Bluetooth
stack confirms accepted sends of live connections only. Decoding a manifest yields an arbitrary success or failure.

Where the code does not do what one would expect, the model follows the code and a lemma says exactly when:

- A single refused H:4 buffer costs packet boundaries (`KeepsBoundariesIff`), and can yield a packet that nobody sent
  (`RefusalLosesBoundary`).
- The debug event announces a terminator that it does not send for an empty name, and its length octet overflows from 250
  octets of name on (`EventIsWellFormedIff`).
- After one delivery the serial receiver gives the whole rest of a chunk to the next message, and a zero length octet
  discards the rest of its chunk (`StepMatchesIff`, `RunMatchesIff`). A message overfilled in this way silences the
  receiver until it leaves the message buffer (`OverlongIsForever`, `OverlongOverrunsIff`).
- A serial write during a transfer loses octets and still reports success (`CommsTx.CommsWrite`); an aborted transfer
  leaves the rest of the ring behind (`CommsTx.TxAborted`).
- Leaving the poll loop because `poll` or `mqtt_live` failed leaves a connected client that nobody serves
  (`ServedStepIff`, `DeafStep`, `DeafRun`).
- What was decided before an update was accepted can still be carried out after it: `setup`, and the message that the
  check is done, which is published if the client is connected by then and lost otherwise (`LateReleaseIff`,
  `LeftoverRun`, `LateReleaseIsReachable`).
- A later manifest replaces the accepted one before the download starts (`DownloadIsUpgradeIff`,
  `OlderImageCanBeDownloaded`), and images that differ only in their hash upgrade each other (`MutualUpgradesIff`).
- `reconnect_work_fn` compares with `EINPROGRESS` where `pyrinas_cloud_connect` returns `-EINPROGRESS`; under atomic
  callbacks the two never meet (`Recovers`).
- A publish reaches the callback of a longer name registered earlier (`DispatchReachesFirstRegistrationIff`).
- The worker drops a payload that the Bluetooth stack refuses (`PayloadCanBeDroppedIff`, `DropIsReachable`).
- Event names of more than 254 octets share their stored form with others (`KeyIsOwnIff`).
- With a keep-alive of more than 5 s, a connection lost at the end of a long poll can overrun the watchdog window
  (`AlwaysInWindowIff`).
- Octets that a claim of the receive ring did not reach wait until more are received (`CommsRx.Iterate`).

## Model

| member | source | states |
|---|---|---|
| H4Stream.MovesAccount | samples/hci_uart/src/main.c:120-194 | Whatever a loop turn takes from the FIFO, the queue plus the packet in progress still account for the whole stream, whatever follows |
| H4Stream.FillAccounts | samples/hci_uart/src/main.c:180-193 | Octets read into a buffer, in pieces of any size, complete exactly the packet its header declared |
| H4Stream.HeaderAccounts | samples/hci_uart/src/main.c:136-171 | After type and header the receiver holds the packet if it fits its buffer and otherwise discards exactly its declared payload |
| H4Stream.DiscardAccounts | samples/hci_uart/src/main.c:173-178 | Discarding ends exactly at the next packet boundary |
| H4Stream.RefusalAccounts | samples/hci_uart/src/main.c:146-162 | A refused buffer or an unknown type costs the type octet and nothing else |
| H4Stream.ShortHeader | samples/hci_uart/src/main.c:85-111 | A stream that ends inside a header queues nothing for it |
| H4Stream.ParsePacket | samples/hci_uart/src/main.c:136-193 | One packet, fitting or oversized, is parsed off without touching the octets after it |
| H4Stream.ParseCommandOctets | samples/hci_uart/src/main.c:85-97 | The octets `01`, opcode, length, parameters are queued as that command if it fits its buffer, and passed over otherwise |
| H4Stream.ParseAclOctets | samples/hci_uart/src/main.c:99-111 | The octets `02`, handle, little-endian length, data are queued as that ACL packet if it fits its buffer, and passed over otherwise |
| H4Stream.ParseSkips | samples/hci_uart/src/main.c:141-162 | Any other type octet, or one whose buffer is refused, is skipped alone |
| H4Stream.ParseEncodeAll | samples/hci_uart/src/main.c:113-195 | A stream of well-formed packets yields exactly those that fit, in order |
| H4Stream.KeepsBoundariesIff | samples/hci_uart/src/main.c:146-150 | Every well-formed stream yields exactly its fitting packets if and only if no buffer request is refused |
| H4Stream.RefusalLosesBoundary | samples/hci_uart/src/main.c:146-150 | An input on which octets from inside a packet are queued as a packet nobody sent |
| HciUart.H4Read | samples/hci_uart/src/main.c:52-76 | The octets stored are the next ones of the stream; fewer than `min` only when the stream has ended |
| HciUart.H4Discard | samples/hci_uart/src/main.c:78-83 | Drops at most 33 octets and never more than asked |
| HciUart.H4CmdRecv | samples/hci_uart/src/main.c:85-97 | The buffer starts with the three header octets and the third is what remains |
| HciUart.H4AclRecv | samples/hci_uart/src/main.c:99-111 | The buffer starts with the four header octets and the last two, little-endian, are what remains |
| HciUart.Receiver.GetTx | samples/hci_uart/src/main.c:146-150 | A buffer left over from an unknown type is abandoned; every other buffer keeps its one fate |
| HciUart.Receiver.BeginPacket | samples/hci_uart/src/main.c:135-171 | Starts a packet, retries or leaves the interrupt, always making progress while octets are to come |
| HciUart.Receiver.OpenPacket | samples/hci_uart/src/main.c:146-171 | Header plus declared payload are within the buffer, or the buffer is released and the payload is to be discarded |
| HciUart.Receiver.FillPacket | samples/hci_uart/src/main.c:180-193 | Filled plus missing stays header plus declared payload; the packet is queued exactly when nothing is missing |
| HciUart.Receiver.DiscardPacket | samples/hci_uart/src/main.c:173-178 | Nothing is queued while an oversized packet passes |
| HciUart.Receiver.BtUartIsr | samples/hci_uart/src/main.c:113-195 | For any interrupt pattern: the stream is accounted for, every buffer has one fate, and a long enough interrupt drains the FIFO |
| HciUart.QueueIsParse | samples/hci_uart/src/main.c:113-195 | At every loop head, and even when stuck in a header, the queue is the parse of what was consumed |
| HciUart.SplitIndependence | samples/hci_uart/src/main.c:113-195 | Two receivers that consumed the same octets in different pieces and interrupts queued the same packets, as long as their buffer requests went the same way |
| HciUart.GrantsAgree | samples/hci_uart/src/main.c:146-150 | which they did if none was refused |
| HciUart.WellFormedStreamIsDelivered | samples/hci_uart/src/main.c:113-195 | Exactly the fitting packets of a well-formed stream are queued, in order |
| HciUart.NoBufferIsLost | samples/hci_uart/src/main.c:146-193 | Every buffer is in progress, queued or released unless one was handed out for an unknown type |
| DebugEvent.BasenameIsUnique | samples/hci_uart/src/main.c:244-253 | A path has one suffix after its last '/' |
| DebugEvent.FindBasename | samples/hci_uart/src/main.c:244-253 | The position found starts the part after the last '/' |
| DebugEvent.BtCtlrAssertHandle | samples/hci_uart/src/main.c:234-277 | What is sent is the event for the basename and line |
| DebugEvent.EventIsWellFormedIff | samples/hci_uart/src/main.c:255-273 | The length octet equals the parameters that follow if and only if the name has 1 to 249 octets |
| DebugEvent.EventOctets | samples/hci_uart/src/main.c:255-273 | For every name and line: the four leading octets, the name with its terminator, and the line in the last four, low octet first |
| DebugEvent.DecodeEvent | samples/hci_uart/src/main.c:255-273 | Decoding returns the same name and 32-bit line |
| Bytes.LittleEndian32RoundTrip | samples/hci_uart/src/main.c:270-273 | The four line octets determine the line |
| Framing.ParsePiecewise | subsys/comms/comms.c:252-354 | A stream may be parsed piece by piece, carrying over the unfinished message |
| Framing.FramesOfEncodeAll | subsys/comms/comms.c:266-313 | Messages of 1 to 255 octets survive framing and parsing |
| Framing.StepMatchesIff | subsys/comms/comms.c:266-344 | One chunk keeps the receiver in agreement with the stream if and only if it suits the message in progress |
| Framing.RunMatchesIff | subsys/comms/comms.c:252-354 | For every chunking: agreement throughout if and only if every chunk suits |
| Framing.OctetwiseMatches | subsys/comms/comms.c:252-354 | Fed octet by octet, every stream is delivered exactly as it parses, zero lengths being skipped |
| Framing.StepOctets | subsys/comms/comms.c:294-338 | Of the octets at hand, the first message is delivered and the next one gets all that is left, unless it starts with a zero length |
| Framing.StepKeepsOrDrops | subsys/comms/comms.c:266-344 | An incomplete message keeps all octets, and a zero length octet costs the rest of its chunk |
| Framing.ThreeMessagesInOneChunk | subsys/comms/comms.c:316-333 | Of three short messages in one chunk only the first comes out, and nothing after it, as long as no chunk overruns `message` |
| Framing.OverlongIsForever | subsys/comms/comms.c:282-344 | Once the tail path has overfilled a message, all that follows is added to it and nothing is delivered, as long as no chunk overruns `message` |
| RingBuffer.RingBuf.Put | subsys/comms/comms.c:134-143 | Stores as much as there is room for; accepted is freed plus contents |
| RingBuffer.RingBuf.GetClaim | subsys/comms/comms.c:258-261 | Claims a prefix of what is not yet claimed |
| RingBuffer.RingBuf.GetFinish | subsys/comms/comms.c:346-353 | Frees from the front and gives up all claims |
| Comms.SuitingFits | subsys/comms/comms.c:282-344 | A chunk that suits the message in progress is never copied past the end of `message` |
| Comms.OverlongOverrunsIff | subsys/comms/comms.c:282-344 | After an overfilled message some chunk overruns `message` if and only if more octets follow than there is room for |
| Comms.ExtendIs | subsys/comms/comms.c:282-344 | The arithmetic on `size_t` and pointers amounts to the specified step, and to a copy past the end of `message` exactly when the chunk overruns |
| Comms.CommsRx.RxReady | subsys/comms/comms.c:134-145 | Received octets go behind those in the ring, as far as they fit, and the thread is woken |
| Comms.CommsRx.Extend | subsys/comms/comms.c:282-344 | The message array and counters take exactly the specified step, including the wrap-around of `size_t`, or overrun |
| Comms.CommsRx.StartNext | subsys/comms/comms.c:312-338 | After a delivery all that is left of the chunk goes to the next message |
| Comms.CommsRx.Consume | subsys/comms/comms.c:266-344 | One chunk is one step; a copy leaves the message array if and only if the chunk overruns it |
| Comms.CommsRx.Iterate | subsys/comms/comms.c:252-354 | Each turn consumes a prefix of the ring once and takes the specified step; octets are stranded exactly if the claim ended before them |
| Comms.Reassembled | subsys/comms/comms.c:252-354 | Delivered plus held messages are the parse of what was consumed, fill stays within size and 255, and consumed plus ring is all that was accepted |
| Comms.CommsTx.StartTx | subsys/comms/comms.c:46-73 | An idle UART gets the next block; a refusal frees that many octets from the front instead |
| Comms.CommsTx.CommsWrite | subsys/comms/comms.c:207-223 | From any state, octets are lost if and only if some are stored during a transfer; otherwise order and completeness are kept |
| Comms.CommsTx.TxDone | subsys/comms/comms.c:106-122 | Sends what is left; no transfer in flight means an empty ring, even after octets were lost during the transfer |
| Comms.CommsTx.TxAborted | subsys/comms/comms.c:124-132 | The ring is left consistent only if nothing remained |
| Comms.TransmittedInOrder | subsys/comms/comms.c:46-122 | The blocks given to the UART join to the accepted octets in order, across wraps |
| Version.VerComp | subsys/pyrinas_cloud/pyrinas_cloud_helper.c:23-54 | The loop computes the comparison |
| Version.CompareIsNumeric | subsys/pyrinas_cloud/pyrinas_cloud_helper.c:23-54 | -1 and 1 follow the base-256 numbers; on a tie 0 if and only if the hashes are equal, else 1 |
| Version.UpgradesNeverGoBack | subsys/pyrinas_cloud/pyrinas_cloud.c:470-503 | Over any chain of upgrades the numeric version never decreases and consecutive images differ |
| Version.MutualUpgradesIff | subsys/pyrinas_cloud/pyrinas_cloud_helper.c:44-53 | Two images upgrade each other if and only if only their hashes differ |
| CloudProtocol.OtaStep | subsys/pyrinas_cloud/pyrinas_cloud.c:389-525 | Every step keeps: accepted means not ready, pending or running download means accepted, no release afterwards |
| CloudProtocol.HandshakeStep | subsys/pyrinas_cloud/pyrinas_cloud.c:648-668 | Every step keeps the order of the first check |
| CloudProtocol.NoResponseIff | subsys/pyrinas_cloud/pyrinas_cloud.c:408-413 | The no-response assertion fails if and only if no OTA publish was handled since boot |
| CloudProtocol.RecoveryStep | lib/app/main.c:172-197 | Every step keeps: after the first connect, connected or reconnect pending, never both |
| CloudProtocol.ServedStepIff | subsys/pyrinas_cloud/pyrinas_cloud.c:1073-1149 | A step leaves a connected client unserved if and only if it is a bare break out of the poll loop without a signal |
| CloudProtocol.DeafStep | subsys/pyrinas_cloud/pyrinas_cloud.c:1076-1111 | A connected, unserved client stays so until a disconnect event |
| CloudProtocol.DeafRun | subsys/pyrinas_cloud/pyrinas_cloud.c:1076-1111 | The same over every run |
| CloudProtocol.DeafIsReachable | subsys/pyrinas_cloud/pyrinas_cloud.c:1105-1111 | A failing `poll` right after connecting gets there |
| CloudProtocol.RunsAreSafe | subsys/pyrinas_cloud/pyrinas_cloud.c:389-1150 | All invariants hold after every run; the update state never returns to ready and the check flag never to 0 |
| CloudProtocol.NoReleaseAfterUpdate | subsys/pyrinas_cloud/pyrinas_cloud.c:488-525 | After an accepted update: no ready callback, no submission of the done work, no application subscription |
| CloudProtocol.LeftoverRun | subsys/pyrinas_cloud/pyrinas_cloud.c:205-211 | Over every run after an accepted update, a pending done message stays pending, is published or is refused, once; `setup` is entered only by using up an earlier release |
| CloudProtocol.DoneStep | subsys/pyrinas_cloud/pyrinas_cloud.c:755-759 | No step after an accepted update adds a done message: running its work publishes it if connected and loses it otherwise |
| CloudProtocol.LateReleaseIff | lib/app/main.c:291-295 | After an accepted update, the done message is published in some run, and refused in some run, if and only if its work is pending; `setup` is entered in some run if and only if the main thread was released before |
| CloudProtocol.LateReleaseIsReachable | subsys/pyrinas_cloud/pyrinas_cloud.c:488-525 | A newer manifest right after the first answer to a check is such a run |
| CloudProtocol.SetupNeedsReady | lib/app/main.c:291-295 | `setup` runs only after a ready callback that no accepted update preceded |
| CloudProtocol.DownloadNeedsUpgrade | subsys/pyrinas_cloud/pyrinas_cloud.c:415-455 | No download without an earlier manifest judged 1 by the version comparison |
| CloudProtocol.ConnectionRecovers | subsys/pyrinas_cloud/pyrinas_cloud.c:854-897 | In every run: connected or reconnect pending; and without bare breaks a connected client is served |
| CloudProtocol.DownloadIsUpgradeIff | subsys/pyrinas_cloud/pyrinas_cloud.c:415-485 | In every run the image downloaded is that of the last OTA publish before the download, so it is an upgrade if and only if that last manifest is |
| CloudProtocol.OlderImageCanBeDownloaded | subsys/pyrinas_cloud/pyrinas_cloud.c:470-503 | An older manifest after an accepted one is what gets downloaded |
| CloudHistory.StateIsObserved | subsys/pyrinas_cloud/pyrinas_cloud.c:389-897 | In every run the state is what the log of events tells, each event by itself: no submission is forgotten and no work runs unasked |
| CloudHistory.UpdateStateIs | subsys/pyrinas_cloud/pyrinas_cloud.c:815-851 | In every run the update state is the outcome of what happened last to the update, and after a download ended the reboot is due |
| CloudHistory.PublishesAreAnswered | subsys/pyrinas_cloud/pyrinas_cloud.c:457-525 | In every run an OTA publish is accepted exactly if it names an upgrade, and else releases the application exactly if no update was accepted before; at once, and at no other time |
| CloudHistory.ChecksAreMade | subsys/pyrinas_cloud/pyrinas_cloud.c:648-668 | In every run each connection before an update is followed by an OTA subscription, its acknowledgment by a request unless an answer was seen, and each request is watched until answered |
| CloudHistory.NoResponseIsReachable | subsys/pyrinas_cloud/pyrinas_cloud.c:408-413 | A server that does not answer the first check stops the device |
| CloudHistory.UpdateIsReachable | subsys/pyrinas_cloud/pyrinas_cloud.c:415-455 | A whole update: offered, accepted, downloaded, device restarted |
| CloudHistory.ThreadComesHome | subsys/pyrinas_cloud/pyrinas_cloud.c:1073-1149 | While disconnected each turn of the cloud thread takes it closer to its semaphore, which only a connection gives; it polls only when its loop head finds the client connected |
| PyrinasCloud.ClientKeepsItsPromises | subsys/pyrinas_cloud/pyrinas_cloud.c:389-1150 | At any time: `setup` and downloads were preceded by what they need, the stored manifest is the last published, the log tells the state and answers every publish, and a client that is not connected is due to reconnect |
| PyrinasCloud.Client.Connect | subsys/pyrinas_cloud/pyrinas_cloud.c:854-897 | Refused while connected; on success connected, with the cloud thread's semaphore given |
| PyrinasCloud.Client.MainConnect | lib/app/main.c:284-292 | A failing first connect stops the device; otherwise main waits |
| PyrinasCloud.Client.PublishEvtHandler | subsys/pyrinas_cloud/pyrinas_cloud.c:457-548 | An OTA publish takes the state machine's step; any other reaches at most one callback, the first match |
| PyrinasCloud.Client.MqttEvtHandler | subsys/pyrinas_cloud/pyrinas_cloud.c:552-674 | Each MQTT event takes its step; an error result changes nothing but the connection; the acknowledgment of the OTA subscription submits both the request and the look for its answer |
| PyrinasCloud.Client.OnConnectFn | subsys/pyrinas_cloud/pyrinas_cloud.c:389-406 | Subscribes to the OTA topic under a fresh id only while ready |
| PyrinasCloud.Client.OtaCheckSubscribedWorkFn | subsys/pyrinas_cloud/pyrinas_cloud.c:408-413 | Asserts that a response has been seen |
| PyrinasCloud.Client.FotaStartFn | subsys/pyrinas_cloud/pyrinas_cloud.c:415-455 | Starts the download, or records the error and reboots |
| PyrinasCloud.Client.FotaEvt | subsys/pyrinas_cloud/pyrinas_cloud.c:815-851 | A finished or failed download leaves its state and schedules the reboot |
| PyrinasCloud.Client.ReconnectWorkFn | lib/app/main.c:187-197 | Connects, or schedules itself again |
| PyrinasCloud.Client.CloudPoll | subsys/pyrinas_cloud/pyrinas_cloud.c:1105-1147 | Normal turn, bare break, or abort with its disconnect event |
| Topics.TopicsAreWhole | subsys/pyrinas_cloud/pyrinas_cloud.c:139-139 | No registrable name truncates its full topic |
| Topics.FullTopicPrefixIff | subsys/pyrinas_cloud/pyrinas_cloud.c:122-147 | Full topics are equal, or one starts another, exactly as the names do |
| Topics.ApplicationIsNotOta | subsys/pyrinas_cloud/pyrinas_cloud.c:461-462 | An application topic never reaches the OTA handler, whatever lies behind it in memory |
| Topics.CallbackTable.Subscribe | subsys/pyrinas_cloud/pyrinas_cloud.c:120-156 | Appends a registration, refusing long names and a full table |
| Topics.CallbackTable.Dispatch | subsys/pyrinas_cloud/pyrinas_cloud.c:530-547 | Calls at most one callback, the lowest whose full topic starts with the incoming topic |
| Topics.DispatchByName | subsys/pyrinas_cloud/pyrinas_cloud.c:530-547 | The callback reached is the first one whose name starts with the published name |
| Topics.DispatchReachesFirstRegistrationIff | subsys/pyrinas_cloud/pyrinas_cloud.c:530-547 | It is the first registration of that name if and only if no longer name starting with it came earlier |
| Watchdog.InvStep | subsys/pyrinas_cloud/pyrinas_cloud.c:1073-1106 | Every wait keeps the feeds in time |
| Watchdog.FeedsAreInTime | subsys/pyrinas_cloud/pyrinas_cloud.c:1073-1149 | Feeds are at most max(keep-alive, 55 s) apart, and keep-alive + 55 s across a drop |
| Watchdog.OnlyDropsAreLate | subsys/pyrinas_cloud/pyrinas_cloud.c:928-934 | With a keep-alive inside the 60 s window only a drop can make a feed late |
| Watchdog.FullPollThenDrop | subsys/pyrinas_cloud/pyrinas_cloud.c:1077-1106 | A run in which a drop at the end of a full poll reaches the longer bound |
| Watchdog.AlwaysInWindowIff | subsys/pyrinas_cloud/pyrinas_cloud.c:928-1149 | Every feed of every run is in the 60 s window if and only if the keep-alive is at most 5 s |
| BleProtocol.EnqueueKeeps | lib/ble/ble_central.c:292-305 | Queueing a broadcast keeps a slot's items the unbroken run of writes since it became ready |
| BleProtocol.SendKeeps | lib/ble/ble_central.c:79-113 | So does taking the oldest item |
| BleProtocol.InvStep | lib/ble/ble_central.c:71-623 | Every step keeps: queued means ready means connected, and every item belongs to the present connection |
| BleProtocol.InvRun | lib/ble/ble_central.c:71-623 | The same over every run |
| BleProtocol.NoStaleDelivery | lib/ble/ble_central.c:470-507 | Whatever is sent on a slot was written while that same connection was ready there |
| BleProtocol.ConnectTakesFreeSlot | lib/ble/ble_central.c:528-537 | A new connection gets the first free slot, and no other slot changes |
| BleProtocol.DiscoverMakesReady | lib/ble/ble_central.c:354-375 | Discovery makes the slot of that connection ready, and no other slot changes |
| BleProtocol.DisconnectFreesSlot | lib/ble/ble_central.c:477-502 | A disconnection frees the slot of that connection and purges its queue, and no other slot changes |
| BleProtocol.GoneIff | lib/ble/ble_central.c:477-502 | After a disconnection no slot holds the connection if and only if it was not in two of them |
| BleProtocol.NothingAfterDisconnect | lib/ble/ble_central.c:470-507 | In every run in which a connection enters once, nothing is handed to the stack for it after its disconnection |
| BleProtocol.WriteIsQueued | lib/ble/ble_central.c:286-305 | A write is queued last for each ready slot with fewer than ten items, and for no other |
| BleProtocol.SentInOrder | lib/ble/ble_central.c:71-122 | In every run, what was handed to the stack for a ready slot without overflow is, in order, without gap or repetition, what was written since it became ready, up to what is queued |
| BleProtocol.SlotsAgree | lib/ble/ble_central.c:286-305 | Slots that are ready without overflow were sent prefixes of the same writes, from the later of the two on |
| BleProtocol.RunWorkNotStuckIff | lib/ble/ble_central.c:76-116 | A worker pass leaves no queue stuck if and only if every queue it does not empty has a send in flight |
| BleProtocol.NeverStuck | lib/ble/ble_central.c:71-623 | With a stack that refuses only while busy, no queue is ever stuck |
| BleProtocol.DrainStep | lib/ble/ble_central.c:71-122 | Every pass or confirmation decreases the measure |
| BleProtocol.DrainingEnds | lib/ble/ble_central.c:596-623 | With writes stopped, all queues are empty after at most that many steps |
| BleProtocol.DropsIff | lib/ble/ble_central.c:76-116 | A pass drops a payload if and only if some send is refused |
| BleProtocol.PayloadIsDropped | lib/ble/ble_central.c:97-113 | A refused payload has left its queue and is not in flight |
| BleProtocol.PayloadCanBeDroppedIff | lib/ble/ble_central.c:97-113 | A stack that refuses only while busy can drop a payload in a pass if and only if there is one to send on a connection with a send in flight |
| BleProtocol.DropIsReachable | lib/ble/ble_central.c:71-122 | Two writes in quick succession get there from start-up, for any first connection |
| BleCentral.SendsAreCurrent | lib/ble/ble_central.c:71-122 | Whatever the central handed to the stack was written while that connection was ready in that slot |
| BleCentral.SendsAreTaken | lib/ble/ble_central.c:71-122 | What the central handed to the stack for a ready slot without overflow, followed by its queue, is the writes since it became ready |
| BleCentral.Central.FindSlot | lib/ble/ble_central.c:477-483 | Finds the first slot that holds the connection, or is free |
| BleCentral.Central.Connected | lib/ble/ble_central.c:528-537 | The first free slot gets the connection |
| BleCentral.Central.DiscoveryCompleted | lib/ble/ble_central.c:354-375 | The slot of the connection becomes ready |
| BleCentral.Central.Disconnected | lib/ble/ble_central.c:477-502 | The slot is freed, purged and no longer ready |
| BleCentral.Central.BleCentralWrite | lib/ble/ble_central.c:257-309 | Queues for every ready slot and submits the worker, or does nothing |
| BleCentral.Central.SendFrom | lib/ble/ble_central.c:79-113 | One slot's turn: at most its oldest item |
| BleCentral.Central.BtSendWorkHandler | lib/ble/ble_central.c:71-122 | One pass over all slots |
| BleCentral.Central.BleDataSent | lib/ble/ble_central.c:596-623 | A confirmation submits the worker if the slot still has items |
| Subscriptions.KeyIsInjective | lib/ble/ble_m.c:214-235 | Up to 254 octets, names are stored apart |
| Subscriptions.KeyIsWholeIff | lib/ble/ble_m.c:214-235 | A name is stored whole if and only if it has at most 254 octets |
| Subscriptions.KeyIsOwnIff | lib/ble/ble_m.c:214-235 | A name shares its stored form with no other name if and only if it has at most 254 octets |
| Subscriptions.TableOf | lib/ble/ble_m.c:468-487 | The entries are a map with as many keys as entries |
| Subscriptions.TableReplace | lib/ble/ble_m.c:240-244 | Overwriting an entry is a map update |
| Subscriptions.TableExtend | lib/ble/ble_m.c:245-250 | So is adding one under a new name |
| Subscriptions.AfterIsBounded | lib/ble/ble_m.c:223-228 | At most twelve names, whatever is asked for |
| Subscriptions.LastAcceptedWins | lib/ble/ble_m.c:211-251 | The table holds a handler for a name if and only if it is that of the last accepted request for it: no accepted request is lost |
| Subscriptions.GrantedWhileThereIsRoom | lib/ble/ble_m.c:214-250 | A name that fits is stored with its handler exactly as long as fewer than twelve names are |
| Subscriptions.RefusedWhenFullOrTooLong | lib/ble/ble_m.c:217-228 | A full table refuses every request, and every table a name that does not fit |
| Subscriptions.OneDelivery | lib/ble/ble_m.c:105-119 | One event: the raw handler, and directly behind it the subscriber of the name |
| Subscriptions.RawHandlerGetsAll | lib/ble/ble_m.c:95-122 | For every queue: the raw handler gets all events in order, each directly before its subscriber |
| Subscriptions.SubscribersGetKnown | lib/ble/ble_m.c:95-122 | For every queue: the subscribers get exactly the events whose name is subscribed, in order |
| Subscriptions.BleM.SubscriberSearch | lib/ble/ble_m.c:468-487 | Returns the entry of the name, or -1 exactly if the map lacks it |
| Subscriptions.BleM.Store | lib/ble/ble_m.c:237-250 | Updates the map at the name |
| Subscriptions.BleM.BleSubscribe | lib/ble/ble_m.c:211-251 | The table is the bounded map after one more request; a full table refuses even known names |
| Subscriptions.BleM.BleEvtHandler | lib/ble/ble_m.c:298-307 | Queues the event unless twenty are waiting |
| Subscriptions.BleM.Dispatch | lib/ble/ble_m.c:105-119 | Raw handler first, then the subscriber of the name |
| Subscriptions.BleM.BtSendWorkHandler | lib/ble/ble_m.c:95-122 | Handles all accepted events once each in arrival order |

## Left out

- Interleavings inside one callback, interrupt body or work item: each is one atomic step.
- Network buffers after hand-over: `txQueue` holds a queued packet's contents, not the buffer, so later aliasing is not modelled.
- HciUart.H4Read: spinning for a header that never comes is a final state (`stuck`) instead of divergence, since nothing happens after it.
- Comms.CommsRx.Iterate: what the program does after a copy has left `message` is undefined in the source and not modelled.
- RingBuffer.RingBuf.GetClaim: where the storage wraps around is left open, so a claim may end before the contents at any point.
- Comms.CommsTx.UartTx: an idle UART that refuses a transfer, and completions of less than the whole block, are not modelled.
- PyrinasCloud.Client.OtaDoneWorkFn: what becomes of a message once `mqtt_publish` has it, or if that call fails while connected, is not modelled.
- Watchdog.FeedsAreInTime: the timing of the cloud loop is modelled on values, processing takes no time, and each taken semaphore finds the client connected.
- `pyrinas_cloud_unsubscribe`: it frees an entry but keeps its slot, so what the table does next depends on the heap.
- Manifest, telemetry and protobuf encodings: QCBOR and nanopb are not part of this model.
- `security_changed`, `gatt_discover`, failed discoveries and connection errors of the Bluetooth central: they change no slot that is modelled.
- `m_num_connected` and scanning: the counter also goes down for slots that never became ready, and only steers scanning.
- Confirmations that the Bluetooth stack delivers for a connection after its disconnection.
- `h4_send`, `tx_thread` and the start-up event of the HCI sample: they copy octets or hand buffers on.
- `ble_peripheral.c`: a one-slot copy of the central's queue.
- Publishing of telemetry and events, the periodic timer, TLS, DNS, modem, flash and clock drivers: device and network I/O.
