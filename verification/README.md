# Verification of the two-board USB filter

The system puts two RP2040 boards back to back. The *master* is a USB device that faces a PC,
the *slave* is a USB host that faces the real device, and the two exchange messages over SPI.
This project models their firmware in Dafny and proves what it promises; `dafny verify
dfyconfig.toml` checks everything.

Code that works step by step is modelled by classes and methods. Each method is tied, by its
postcondition, to a function of the old state, and the theorems are about those functions.

| module | what it models |
|---|---|
| `SpiFraming` | the bytes of one message on the wire: the sender, the receiver and the marker they share |
| `SyncProtocol`, `SyncTheorems`, `SyncDelivery`, `SyncPin` | the two boards with two cores each as one step system, what every run keeps, what a round delivers, and what the slave's pin tells the master |
| `SyncRound` | one round of `sync` on each board down to the bytes |
| `TransferEngine`, `DeviceTransfers` | splitting a transfer into packets and putting it together again, on either board |
| `SlaveHost`, `ControlRead`, `HostAddress`, `SlaveAnswers` | the slave's control transfers: packet lengths, data PIDs, completion, device addresses, and when it sends packets at all |
| `MasterDevice`, `DescriptorWalk`, `EndToEnd`, `Sessions` | the master's reaction to setup packets and forwarded packets, the configuration walk, and both boards together, for one request and for any number |
| `AddressRegister`, `PcPace`, `Ep0Pids` | whole runs of the master with a PC that reads when it likes: when the address register is written, which offered packets the PC receives, and with which PIDs |
| `DpramAllocator`, `BuffStatus`, `HostPool` | endpoint memory of the device, its buffer-status service loop, the host's endpoint pool |
| `LegacyRing`, `LineEncoding` | the ring buffer and the line encoder and decoder of the older PIO firmware |

## What turned out to be conditional

Some promises hold only under a condition; the condition is proved exact.

* The address register is written only after the PC has taken a packet that answers the very
  SET_ADDRESS that is current if and only if, when its setup packet came, nothing of an earlier
  request was on its way to the PC: no packet in the buffer of 0x80, no status bit of it, no
  packet in the master's queue and none still to come from the slave
  (`AddressRegister.WrittenWhenAnsweredIff`). `ChangesTooEarly` gives a run in which it fails:
  the code asks only whether *a* transfer on 0x80 is complete.
* At any point of any interleaving of the PC's reads with the handlers, the PC can still receive
  exactly the packets of an answer, in order, if and only if none has been armed over one that
  the PC had not taken, and the board has not stopped before the last was armed
  (`PcPace.PcReceivesAnswerIff`). The board stops if and only if the status of a packet is handled
  after the next one has been armed, which trips the engine's assertion, or if the master cannot
  act on the answer (`PcPace.StopsIff`). The exchange can end with the master ready for the next
  request if and only if neither has happened, nothing was overwritten, and the master can act on
  the answer (`PcPace.AnswerCompletesIff`). The master waits for neither the PC nor the status:
  `OverwritesUnread` and `StopsAtFullBuffer` are runs that fail in the one way and in the other.
* A finishable request goes through, on both boards, if and only if the packet size that a device
  descriptor names is at most 64, the walk over a configuration comes to its end and the slave can
  open what it lists, and endpoint 0x81 is open if a report was asked for
  (`Sessions.ExchangeGoesThroughIff`). For a configuration whose endpoints all have drivers this is
  so if and only if they fit the memory left and each can be opened
  (`Sessions.ConfigurationGoesThroughIff`).
* The slave's pin lets the master send while the slave is not reading. For a master that has had
  k frames taken in its round this can happen if and only if k is not 0 (`SyncPin.StalePinIff`);
  the first frame of a round, or the query of an empty round, always finds the slave reading. The
  protocol theorems therefore rest on the wire holding a frame until the other side takes it.
* A frame is always read back if and only if the sender's marker variable holds 0xff and no
  idle byte does (`SpiFraming.ReadBackIff`). Every receive restores the former.
* The slave sees the end of a control read with the packets of its answer unless, and only
  unless, the request is longer than a packet, is answered in full and is a whole number of
  packets (`ControlRead.ReadOnSlave`). In that case it asks for one more packet; only if the
  device then sends a short or empty one, which it need not, is the master told
  (`ControlRead.Ends`).
* An endpoint of the host pool is found again if and only if its number is not 0
  (`HostPool.LookupFindsIff`); from the fifteenth open on the last slot goes to whoever comes
  last (`HostPool.LaterOpensEvict`), and an interrupt endpoint there has a number and a buffer of its
  own if and only if no other kind of endpoint has had the slot since the fifteenth open
  (`HostPool.InterruptBuffersApart`).
* The device's allocator fails an assertion if and only if, at some point, the opens since the
  last reset have asked for more than the memory holds (`DpramAllocator.HaltsIff`).
* A configuration's endpoints are all opened if and only if what they take fits the device's memory
  (`DescriptorWalk.FinishesIfHeld`), and the loop over descriptors ends if and only if none on
  its path has length 0 (`DescriptorWalk.WalkEndsIff`).
* `q_size` is the number of queued elements if and only if that is below 256
  (`LegacyRing.SizeExactIff`).
* The line encoder stores beyond its array of 100 words if and only if the packet has more than
  198 bytes (`LineEncoding.StoresWord100Iff`).
* The comment at line 101 of `pio_usb.c` says that the run counter is incremented on a 1. The
  expression saturates at 1, so the stuffing branch is dead, and the line is that of section
  7.1.9 of the USB 2.0 specification if and only if no six ones follow each other, counting the
  one that ends the sync pattern (`LineEncoding.LineIsStandardIff`). The standard's stuffing
  rule is a separate function that the code's model does not use.

## Model

| member | source | states |
|---|---|---|
| SpiFraming.SpiPort.SendBlocking | pico_firmware/src/lib/messages/spi_data.c:24-29 | what is written is exactly one frame, led by whatever the marker variable holds, and the flag global takes the new value |
| SpiFraming.SpiPort.ReceiveBlocking | pico_firmware/src/lib/messages/spi_data.c:35-58 | returns the payload and flag of the first frame in the stream, leaves exactly the bytes after it, and restores the marker to 0xff |
| SpiFraming.ParseFrame | pico_firmware/src/lib/messages/spi_data.c:24-58 | one frame behind any idle bytes other than 0xff is read back and the rest of the stream is untouched, for all payloads, lengths and flags |
| SpiFraming.ReadBackIff | pico_firmware/src/lib/messages/spi_data.c:17-58 | every message is read back exactly when the sender's marker is 0xff and no idle byte is |
| SpiFraming.StreamRoundTrip | pico_firmware/src/lib/messages/spi_data.c:24-58 | any list of messages with any idle bytes other than 0xff before each frame is received as the same list |
| SyncTheorems.AllocKeeps | pico_firmware/src/lib/messages/messages.c:68-74 | a new copy is live, has a fresh address, and changes no message already queued |
| SyncTheorems.ReleaseKeeps | pico_firmware/src/lib/messages/messages.c:187-192 | freeing the copy a thread holds frees a live one and changes no message still queued |
| SyncTheorems.OwnershipKept | pico_firmware/src/lib/messages/messages.c:68-74 | every step of any of the four cores keeps "each live copy has exactly one holder" |
| SyncTheorems.ConservationKept | pico_firmware/src/lib/messages/messages.c:147-226 | every step keeps, in both directions, "enqueued equals dequeued, then received, then under way, then waiting to be sent" |
| SyncTheorems.LockstepKept | pico_firmware/src/lib/messages/messages.c:184-224 | every step keeps the two sync loops at matching points of a round |
| SyncTheorems.BoundsKept | pico_firmware/src/lib/messages/messages.c:179-226 | queues stay within capacity, frames within the receive buffer, and the slave never waits for a message it has announced |
| SyncTheorems.RunKeeps | pico_firmware/src/lib/messages/messages.c:68-226 | all four invariants hold in every state of every interleaving of the two core 0s and the two core 1s |
| SyncTheorems.DeliveredInOrder | pico_firmware/src/lib/messages/messages.c:147-226 | over all runs, what one board dequeues is a prefix of what the other enqueued, and all of it once nothing is queued or under way |
| SyncTheorems.FreedExactlyOnce | pico_firmware/src/lib/messages/messages.c:68-74 | over all runs, a live copy has one holder and was never freed, and any other address handed out was freed exactly once and has no holder |
| SyncTheorems.LoopsAgree | pico_firmware/src/lib/messages/messages.c:184-224 | over all runs, the loops never both receive, never both have a frame on the wire, agree on the number of messages to come, and the master's assertion on the count holds |
| SyncTheorems.NoDeadlock | pico_firmware/src/lib/messages/messages.c:179-226 | over all runs, some core 1 can move unless no device is attached or an rx queue is full |
| SyncTheorems.RoundEnds | pico_firmware/src/lib/messages/messages.c:184-224 | with both core 0s quiet, the number of moves until the master is back at the top of its loop is bounded |
| SyncDelivery.RoundDelivers | pico_firmware/src/lib/messages/messages.c:184-224 | a round that begins with a listening slave, both core 0s being quiet, ends with both tx empty, the master's rx grown by exactly the slave's messages and the slave's by exactly the master's behind what was under way, in order |
| SyncDelivery.RoundCompletes | pico_firmware/src/lib/messages/messages.c:184-224 | ... and it does end: with room in both rx for what is to come, some core 1 can always go on, for at most a bounded number of moves |
| SyncDelivery.TakesAllCounted | pico_firmware/src/lib/messages/messages.c:216-223 | whatever the core 0s do meanwhile, at the end of the slave's stream exactly the messages enqueued before it read the level have left its tx |
| SyncDelivery.NothingWithoutDevice | pico_firmware/src/lib/messages/messages.c:185-186 | over all runs without a device, a master at the top of its loop stays there and nothing leaves its tx |
| SyncPin.OfferFindsPin | pico_firmware/src/lib/messages/messages.c:89-97 | over all runs, the master sends only while the slave is reading or has just read a frame |
| SyncPin.FirstOfferFindsReader | pico_firmware/src/lib/messages/messages.c:118-129 | over all runs, the first frame of every round, or the query of an empty one, finds the slave reading |
| SyncPin.StalePinIff | pico_firmware/src/lib/messages/messages.c:118-129 | some run lets a master that has had k frames taken in its round send on a pin raised for a frame already read, exactly when k is not 0 |
| SyncRound.Board.StreamTx | pico_firmware/src/lib/messages/messages.c:187-192 | sends exactly the first n queued messages, in order, as frames |
| SyncRound.Board.CollectRx | pico_firmware/src/lib/messages/messages.c:198-205 | adds exactly the n messages in the stream to rx, in order |
| SyncRound.Board.SyncMaster | pico_firmware/src/lib/messages/messages.c:184-206 | with a device attached: all of tx and then a query are written, and a one-byte count and that many messages are taken; without one nothing changes |
| SyncRound.Board.Listen | pico_firmware/src/lib/messages/messages.c:208-214 | adds the messages before the first query to rx, in order, and consumes exactly those and the query |
| SyncRound.Board.SyncSlave | pico_firmware/src/lib/messages/messages.c:207-224 | after listening, writes the number of queued messages and then all of them |
| SyncRound.SlaveGetsRound | pico_firmware/src/lib/messages/messages.c:187-214 | the bytes of a master's round, with any idle bytes other than 0xff, are the slave's received messages |
| SyncRound.MasterGetsRound | pico_firmware/src/lib/messages/messages.c:196-223 | the bytes of a slave's round, with any idle bytes other than 0xff, are the master's received messages |
| TransferEngine.HwEndpoint.ResetTransferNew | pico_firmware/src/lib/rp2040/rp2040_usb.c:48-54 | the transfer's fields are cleared, and only those |
| TransferEngine.HwEndpoint.PrepareEpBuffer | pico_firmware/src/lib/rp2040/rp2040_usb.c:89-121 | one packet of the rest of the transfer is armed; lengths, PID, hardware buffer and user pointer advance with it |
| TransferEngine.HwEndpoint.StartNextBuffer | pico_firmware/src/lib/rp2040/rp2040_usb.c:124-207 | arms the next buffer with the PID that is due, for every 16-bit length; the bytes of an outgoing packet are those of the caller's memory |
| TransferEngine.HwEndpoint.PrepareHostBuffer | pico_firmware/src/lib/rp2040/rp2040_usb.c:163-206 | the host's part of it: all that remains is asked for at once, packets are counted for the next PID, and an outgoing packet is copied from behind what has been transferred, the rest of the buffer staying as it was |
| TransferEngine.HwEndpoint.Start | pico_firmware/src/lib/rp2040/rp2040_usb.c:209-231 | a transfer starts with its whole length left and one buffer armed, which holds the first packet of the caller's memory if it is an outgoing one |
| TransferEngine.HostArmSays | pico_firmware/src/lib/rp2040/rp2040_usb.c:163-175 | the bytes the host sends, in terms of the caller's memory |
| TransferEngine.WordIntactIff | pico_firmware/src/lib/rp2040/rp2040_usb.c:163-206 | the control word asks for what was meant exactly if the length is below 1024; else the length comes out modulo 1024 |
| TransferEngine.HwEndpoint.SyncEpBuffer | pico_firmware/src/lib/rp2040/rp2040_usb.c:279-323 | counts the finished packet, copies a received one to its place, and ends the transfer on a short one |
| TransferEngine.HwEndpoint.XferContinue | pico_firmware/src/lib/rp2040/rp2040_usb.c:326-360 | after a buffer status the transfer is complete or has its next buffer armed |
| DeviceTransfers.InConservation | pico_firmware/src/lib/rp2040/rp2040_usb.c:89-161 | in every reachable state of every IN transfer: packets sent, armed packet and unsent tail make up the caller's buffer, the three lengths add up to the total, PIDs alternate |
| DeviceTransfers.InCompletes | pico_firmware/src/lib/rp2040/rp2040_usb.c:326-360 | an IN transfer is reported complete after exactly max(1, ceil(total/mps)) packets, whose concatenation is the buffer |
| DeviceTransfers.ChunksConcat | pico_firmware/src/lib/rp2040/rp2040_usb.c:89-121 | the packets a buffer is cut into put together are the buffer |
| DeviceTransfers.ChunksCount | pico_firmware/src/lib/rp2040/rp2040_usb.c:89-121 | there are max(1, ceil(total/mps)) of them |
| DeviceTransfers.OutReassembles | pico_firmware/src/lib/rp2040/rp2040_usb.c:290-360 | after any received packets the caller's memory holds their concatenation and is otherwise untouched, never more than the total, and completion comes exactly with a short packet or a filled total |
| SlaveHost.HostController.HcdSetupSend | pico_firmware/src/lib/rp2040/hcd_rp2040.c:441-471 | the setup packet goes to the given address on a freshly initialised control endpoint |
| SlaveHost.HostController.HcdEdptXfer | pico_firmware/src/lib/rp2040/hcd_rp2040.c:392-439 | an address without an open endpoint is an error; else the transaction starts on its slot, and on the control endpoint all bytes asked for are armed, with DATA1 after a change of direction |
| SlaveHost.EdptXferSays | pico_firmware/src/lib/rp2040/hcd_rp2040.c:411-434 | the buffer control word and the bus transaction of every control transfer |
| SlaveHost.HostController.SendEventToMaster | pico_firmware/src/lib/usb_event_handlers/host_event_handlers.c:120-137 | one message with the packet and its endpoint address is queued for the master, with the packet flag added |
| SlaveHost.SendEventSays | pico_firmware/src/lib/usb_event_handlers/host_event_handlers.c:120-137 | the message is the first bytes of the buffer and then the endpoint, for every number of them that fits |
| SlaveHost.HostController.HcdEventXferComplete | pico_firmware/src/lib/usb_event_handlers/host_event_handlers.c:139-189 | the level machine: setup sent, data stage, status stage, and what each forwards |
| SlaveHost.EventSays | pico_firmware/src/lib/usb_event_handlers/host_event_handlers.c:139-189 | for every event: the next level, the message it adds, with which data and flags |
| SlaveHost.HostController.HwXferComplete | pico_firmware/src/lib/rp2040/hcd_rp2040.c:78-86 | a finished transfer is reset before its event; a part of one is not |
| SlaveHost.HostController.HwTransComplete | pico_firmware/src/lib/rp2040/hcd_rp2040.c:130-143 | only a transaction that sent a setup packet is reported |
| SlaveHost.HostController.HandleBuffStatus | pico_firmware/src/lib/rp2040/hcd_rp2040.c:88-92 | one buffer of the control endpoint: the transfer engine goes on first, then the level machine |
| SlaveHost.HostController.Work | pico_firmware/src/lib/usb_event_handlers/host_event_handlers.c:32-110 | what each kind of message from the master does, in the bytes of the message: setups, data, endpoints, the packet size, the reset, and an address change that tells the device the very address used from then on; unknown kinds and endpoints that cannot be opened are errors |
| SlaveHost.ChangeSays | pico_firmware/src/lib/usb_event_handlers/host_event_handlers.c:17-89 | an address change goes to the device's present address and is a SET_ADDRESS without data for the address that the slave uses from then on |
| SlaveHost.OpenSays | pico_firmware/src/lib/usb_event_handlers/host_event_handlers.c:47-53 | an endpoint descriptor from the master sets up one slot as its bytes say, exactly if it is whole, not for endpoint 0, and not a polled OUT |
| SlaveHost.DataSays | pico_firmware/src/lib/usb_event_handlers/host_event_handlers.c:66-78 | the data of a message are at the start of the buffer when the transfer on the endpoint it names starts |
| ControlRead.ToggleParity | pico_firmware/src/lib/rp2040/rp2040_usb.c:163-207 | for every total > mps > 0, arming the rest of a request and then the whole of it flips the data PID exactly once |
| ControlRead.TogglesAlternate | pico_firmware/src/lib/rp2040/rp2040_usb.c:163-207 | after any number of full packets of a request longer than a packet the armed buffer carries the PID that section 8.5.3 of the USB 2.0 specification asks for, from DATA1 on |
| ControlRead.Continues | pico_firmware/src/lib/rp2040/hcd_rp2040.c:88-92 | a packet that does not end the request is forwarded, and the double arming awaits the next with the right length and PID |
| ControlRead.Ends | pico_firmware/src/lib/usb_event_handlers/host_event_handlers.c:157-173 | a packet that ends it is forwarded as the last one, and for a read the status stage is armed at the same address |
| ControlRead.ReadOnSlave | pico_firmware/src/lib/usb_event_handlers/host_event_handlers.c:120-176 | for every answer, the forwarded packets are the answer and the final one is marked last, unless and only unless the request is unfinishable |
| ControlRead.FirstReadOnSlave | pico_firmware/src/lib/rp2040/rp2040_usb.c:311-320 | while the packet size is still 0 the first packet ends the request |
| ControlRead.WriteOnSlave | pico_firmware/src/lib/usb_event_handlers/host_event_handlers.c:147-173 | a request without data towards the host is answered to the master by one empty packet marked last |
| ControlRead.StatusStage | pico_firmware/src/lib/usb_event_handlers/host_event_handlers.c:166-176 | the status stage forwards nothing and leaves the slave ready for the next request |
| ControlRead.OneLast | pico_firmware/src/lib/usb_event_handlers/host_event_handlers.c:161-173 | exactly one forwarded message carries the last-packet flag, and it is the final one |
| ControlRead.SetupRoundTrip | pico_firmware/src/lib/usb_event_handlers/host_event_handlers.c:28-30 | a setup packet survives its 8 bytes |
| ControlRead.BytesOfSetup | pico_firmware/src/lib/usb_event_handlers/host_event_handlers.c:28-30 | which bytes of a setup packet are which field; section 9.3 of the USB 2.0 specification |
| HostAddress.AddressesOnTheBus | pico_firmware/src/lib/usb_event_handlers/host_event_handlers.c:80-156 | over all runs: setups go to the address in force when asked for (a change to the old one, later ones to 7 until a reset), and data and status stages to the address of their setup |
| HostAddress.SetupsFollowAddressTold | pico_firmware/src/lib/usb_event_handlers/host_event_handlers.c:80-90 | over all runs: every forwarded setup goes, byte by byte, to the address the device was last told on the bus since its reset, an address change goes there too and tells the next one, and nothing else sends a setup |
| HostAddress.StepKeeps | pico_firmware/src/lib/rp2040/hcd_rp2040.c:412-464 | every event asks for the right setups, sets the right address and keeps transfers at one address |
| HostAddress.ChangesAddress | pico_firmware/src/lib/usb_event_handlers/host_event_handlers.c:80-90 | an address change puts setup and status on the bus at the old address, answers the master once, and leaves the slave at the address that the setup names |
| MasterDevice.DeviceController.RegisterResponse | pico_firmware/src/lib/setup_response_aggregator/setup_response_aggregator.c:21-25 | a packet joins the aggregate and is armed for the PC |
| MasterDevice.RegisteringSays | pico_firmware/src/lib/setup_response_aggregator/setup_response_aggregator.c:21-25 | a packet that fits extends the aggregate by exactly its bytes and is armed once |
| MasterDevice.DeviceController.HandleSetupResponse | pico_firmware/src/lib/usb_event_handlers/device_event_handlers.c:122-207 | packet size learnt, endpoints opened on this board and queued for the slave, reports asked for, by the request that was answered |
| MasterDevice.DeviceController.HandleSpiSlaveEvent | pico_firmware/src/lib/usb_event_handlers/device_event_handlers.c:28-75 | debug strings skipped; packets of a response collected and acted on with the last; others handed to their driver |
| MasterDevice.DeviceController.SetupReceivedNew | pico_firmware/src/lib/usb_event_handlers/device_event_handlers.c:77-120 | which setup packets are forwarded, turned into an address change, or answered by the master itself |
| MasterDevice.TakePacketSays | pico_firmware/src/lib/usb_event_handlers/device_event_handlers.c:54-72 | what each kind of packet from the slave is taken for, and that none of them touches the address or the current request |
| MasterDevice.SkipsStrings | pico_firmware/src/lib/usb_event_handlers/device_event_handlers.c:40-50 | exactly the debug strings at the head of the queue are skipped |
| MasterDevice.DeviceController.XferCompleteNew | pico_firmware/src/lib/usb_event_handlers/device_event_handlers.c:209-227 | any completion on 0x80 while the current request is a standard SET_ADDRESS writes its address to the register, whichever packet was completed; no other completion on endpoint 0 does |
| MasterDevice.DeviceController.BusReset | pico_firmware/src/lib/rp2040/dcd_rp2040.c:217-225 | address 0, all endpoint memory free and its registers cleared, and a reset message for the slave |
| DescriptorWalk.Walk | pico_firmware/src/lib/usb_event_handlers/device_event_handlers.c:152-185 | on every response: opens and registers what its specification says, queues one message for each endpoint registered, and tells a finished walk from a refused, an endless and an overrunning one |
| DescriptorWalk.FinishesIff | pico_firmware/src/lib/usb_event_handlers/device_event_handlers.c:156-184 | a walk that nothing else stops comes to the end of the response exactly when no length on its path is 0 |
| DescriptorWalk.WalkKeepsMemory | pico_firmware/src/lib/rp2040/dcd_rp2040.c:331-335 | on every response the walk keeps the invariant of the device's endpoint memory |
| DescriptorWalk.WalkEndsIff | pico_firmware/src/lib/usb_event_handlers/device_event_handlers.c:156-184 | the loop ends exactly when no descriptor on its path has length 0 |
| DescriptorWalk.WalksDescriptors | pico_firmware/src/lib/usb_event_handlers/device_event_handlers.c:152-185 | for every list of whole descriptors with drivable endpoints: exactly the endpoint descriptors are queued, in order and verbatim, each registered with the nearest interface before it, if and only if the memory holds them; sections 9.6.5 and 9.6.6 of the USB 2.0 specification |
| DescriptorWalk.EndpointsAscend | pico_firmware/src/lib/usb_event_handlers/device_event_handlers.c:156-184 | the endpoints of the list are counted in ascending order |
| DescriptorWalk.HoldsAllIff | pico_firmware/src/lib/rp2040/dcd_rp2040.c:61-81 | opening the endpoints of a list of descriptors trips the allocator exactly when the sizes reserved for them do not fit behind what is in use |
| DescriptorWalk.FinishesIfHeld | pico_firmware/src/lib/usb_event_handlers/device_event_handlers.c:152-185 | the walk over descriptors whose endpoints have drivers comes to its end exactly in that case, with all of them registered |
| DescriptorWalk.WalkOpensEndpoints | pico_firmware/src/lib/rp2040/dcd_rp2040.c:61-125 | after a finished walk, for each endpoint named by a descriptor, its number and direction taken from the address byte: it is live with the transfer type, the room and the control register that the last of its descriptors asks for; no endpoint that is not named has changed |
| DescriptorWalk.TakenSays | pico_firmware/src/lib/rp2040/dcd_rp2040.c:63-68 | what an endpoint takes of the memory, from the bytes of its descriptor |
| EndToEnd.AggregatesPrefix | pico_firmware/src/lib/setup_response_aggregator/setup_response_aggregator.c:21-49 | at every moment the aggregator holds exactly the packets taken so far, and nothing is handled before the last |
| EndToEnd.Aggregates | pico_firmware/src/lib/usb_event_handlers/device_event_handlers.c:54-67 | the master handles exactly the concatenation of the forwarded packets, once, arms exactly these packets for the PC in order with the status of a read behind them, and is ready for the next request |
| EndToEnd.ReadEndToEnd | pico_firmware/src/lib/usb_event_handlers/device_event_handlers.c:28-120 | from the PC's setup packet to the handled response: for every forwarded request below 1024 bytes and every answer whose end the slave can see, the master handles exactly what the device answered, once, and has armed it for the PC packet by packet with the status behind it |
| Sessions.AnsweredOnSlave | pico_firmware/src/lib/usb_event_handlers/host_event_handlers.c:120-176 | for every request whose end the slave can see, all packets of the answer arrive and are forwarded, the last one marked |
| Sessions.MasterSays | pico_firmware/src/lib/usb_event_handlers/device_event_handlers.c:122-207 | the forwarded request and then exactly the orders that the answer calls for are queued for the slave, the answer is handled once, and the board stops only at a configuration it cannot open |
| Sessions.ExchangeGoesThroughIff | pico_firmware/src/lib/usb_event_handlers/device_event_handlers.c:28-207 | one request across both boards, status stage and orders included: the answer is handled once and offered packet by packet, and both boards are ready for the next request if and only if the boards can act on it |
| Sessions.DeviceGoesThroughIff | pico_firmware/src/lib/usb_event_handlers/device_event_handlers.c:131-140 | a device descriptor goes through exactly when the packet size it names is at most 64 |
| Sessions.ConfigurationGoesThroughIff | pico_firmware/src/lib/usb_event_handlers/device_event_handlers.c:152-185 | a configuration goes through exactly when what its endpoints take fits the memory and the slave can open each of them |
| Sessions.ReportGoesThroughIff | pico_firmware/src/lib/usb_event_handlers/device_event_handlers.c:202-204 | a report request goes through exactly when the slave has opened endpoint 0x81 |
| Sessions.SessionEndToEnd | pico_firmware/src/lib/usb_event_handlers/host_event_handlers.c:139-176 | for every list of requests each of which has an end that the slave can see and which the boards can act on when it comes, what the master has handled is exactly the list of the device's answers, and both boards are ready again |
| Sessions.PlainSession | pico_firmware/src/lib/usb_event_handlers/device_event_handlers.c:77-120 | requests other than for the device descriptor, a configuration or a report need only be finishable at the packet size that the slave has at the start |
| EndToEnd.PacketSizeEndToEnd | pico_firmware/src/lib/usb_event_handlers/device_event_handlers.c:131-140 | a device descriptor has master and slave agree on the packet size in its eighth byte, and changes nothing else on the slave |
| EndToEnd.ConfigurationEndToEnd | pico_firmware/src/lib/usb_event_handlers/device_event_handlers.c:152-185 | a configuration of whole descriptors with drivers, however it was cut into packets: the board halts exactly if what the endpoints take does not fit the memory left; else exactly the endpoints named are opened as their bytes say, on this board and, descriptor by descriptor, on any slave that can open them |
| Sessions.ConfigurationFillsPool | pico_firmware/src/lib/rp2040/hcd_rp2040.c:233-390 | up to fifteen endpoints of one configuration: on a slave that has opened none, each has a slot of its own as the bytes of its descriptor say, and is found there by its address |
| EndToEnd.ResetEndToEnd | pico_firmware/src/lib/usb_event_handlers/host_event_handlers.c:38-45 | a bus reset by the PC: the master is at address 0 with no endpoint open, and its message has the slave reset the device and go back to address 0 |
| EndToEnd.ReportEndToEnd | pico_firmware/src/lib/usb_event_handlers/device_event_handlers.c:202-204 | the answer to a report request has the slave start a transfer of one packet's length on endpoint 0x81, or halt if that was never opened |
| EndToEnd.AddressEndToEnd | pico_firmware/src/lib/usb_event_handlers/device_event_handlers.c:83-95 | SET_ADDRESS across both boards: the device is told, at its old address, the address that the slave uses from then on, nothing is armed for the PC before it has confirmed, and the master's address changes only with its own status stage |
| AddressRegister.WrittenWhenAnsweredIff | pico_firmware/src/lib/usb_event_handlers/device_event_handlers.c:83-219 | for every state and every SET_ADDRESS: until the next request, all writes of the register come after the PC has taken a packet that answers this request, if and only if nothing of an earlier one was outstanding; section 9.4.6 of the USB 2.0 specification |
| AddressRegister.WrittenAtStatusPacket | pico_firmware/src/lib/usb_event_handlers/device_event_handlers.c:209-219 | in that case, with a device that answers by its empty status packet: at the write exactly one packet has been armed since, it is empty, and it is the one the PC has taken |
| AddressRegister.PoliteWritesConfirmed | pico_firmware/src/lib/usb_event_handlers/device_event_handlers.c:209-219 | over all runs with a PC that sends SET_ADDRESS only when nothing is outstanding, every write of the register is confirmed by a packet that answers the current request |
| AddressRegister.RegisterOverRuns | pico_firmware/src/lib/rp2040/dcd_rp2040.c:208-240 | over all runs, the register is 0 or what the SET_ADDRESS current at the latest write since the last reset said |
| AddressRegister.ChangesTooEarly | pico_firmware/src/lib/rp2040/dcd_rp2040.c:227-240 | a run in which the completion of an earlier request's packet writes the register before the slave has even taken the address change |
| AddressRegister.PcTakesAllIff | pico_firmware/src/lib/rp2040/rp2040_usb.c:209-231 | over all runs, what the PC takes from 0x80 is what was offered, in order and complete, if and only if no packet was armed over one that still waited |
| AddressRegister.Serves | pico_firmware/src/lib/usb_event_handlers/device_event_handlers.c:28-75 | a call of the slave event handler arms the packet of an answer with the request it answers, and leaves everything else of the control endpoint alone |
| PcPace.StopsIff | pico_firmware/src/lib/rp2040/rp2040_usb.c:279-288 | over all interleavings, the board stops exactly if the status of 0x80 is handled when the buffer has been armed again, or if it refuses the whole answer; and what has been offered is the first packets of the answer |
| PcPace.PcReceivesAnswerIff | pico_firmware/src/lib/setup_response_aggregator/setup_response_aggregator.c:21-25 | over all interleavings of the PC's reads with the handlers, and at any point of them, some continuation gives the PC exactly the packets of the answer if and only if none was armed over an unread one and the board did not stop before the last was armed |
| PcPace.AnswerCompletesIff | pico_firmware/src/lib/usb_event_handlers/device_event_handlers.c:28-75 | some continuation moreover leaves the master ready, with the answer handled once, if and only if none was armed over an unread one, no status was handled with the buffer full, and the master can act on the answer |
| PcPace.OverwritesUnread | pico_firmware/src/lib/rp2040/rp2040_usb.c:209-231 | a run in which the second packet is armed over the first, and the PC cannot receive the answer any more |
| PcPace.StopsAtFullBuffer | pico_firmware/src/lib/rp2040/rp2040_usb.c:279-288 | a run in which nothing is overwritten but the board stops, because the second packet was armed before the status of the first had been handled |
| Ep0Pids.ResetEp0Pid | pico_firmware/src/lib/rp2040/dcd_rp2040.c:186-194 | both directions of endpoint 0 are set to DATA1, and nothing else changes |
| Ep0Pids.OffersAlternate | pico_firmware/src/lib/rp2040/rp2040_usb.c:89-121 | with completions anywhere between them, the packets offered on 0x80, each a transfer of its own, carry alternating PIDs from the one that is due, and each its own bytes |
| Ep0Pids.AnswerPids | pico_firmware/src/lib/rp2040/dcd_rp2040.c:186-231 | after a setup packet, the packets of the answer that the master arms go out from DATA1 on in alternation, and the status of the read is a DATA1 |
| SlaveAnswers.AnswersWhenAsked | pico_firmware/src/lib/usb_event_handlers/host_event_handlers.c:120-189 | over all runs of the slave, packets of a response are sent only when the device has answered a request that was taken, at most 64 bytes each, and none after the one marked last |
| DpramAllocator.XorSubtractsIff | pico_firmware/src/lib/rp2040/rp2040_usb.h:38-41 | the XOR, bit by bit, is subtraction exactly for addresses with all bits of the base |
| DpramAllocator.WindowHasBaseBits | pico_firmware/src/lib/rp2040/rp2040_usb.h:38-41 | every address the allocator computes is one |
| DpramAllocator.FieldsDisjoint | pico_firmware/src/lib/rp2040/dcd_rp2040.c:78-80 | the OR, bit by bit, of the fields of a control register is their sum |
| DpramAllocator.CtrlDecodes | pico_firmware/src/lib/rp2040/dcd_rp2040.c:73-80 | the register as the code computes it is enabled and gives back type and offset |
| DpramAllocator.ReservedFits | pico_firmware/src/lib/rp2040/dcd_rp2040.c:63-68 | the reserved size is the packet size rounded up to 64, doubled for bulk |
| DpramAllocator.RunKeeps | pico_firmware/src/lib/rp2040/dcd_rp2040.c:61-125 | the allocator's invariant holds after every run of opens and resets |
| DpramAllocator.BuffersDisjoint | pico_firmware/src/lib/rp2040/dcd_rp2040.c:61-125 | live non-control endpoints hold disjoint, 64-aligned buffers inside the memory, and exactly their control registers are enabled and decode back to type and offset |
| DpramAllocator.HaltsIff | pico_firmware/src/lib/rp2040/dcd_rp2040.c:70-75 | an assertion fails exactly when the opens since the last reset ask for more than the memory holds |
| DpramAllocator.DeviceMemory.ResetNonControlEndpoints | pico_firmware/src/lib/rp2040/dcd_rp2040.c:196-206 | all control registers cleared, no endpoint live, all memory free |
| DpramAllocator.DeviceMemory.HwEndpointInit | pico_firmware/src/lib/rp2040/dcd_rp2040.c:61-125 | one open is one allocator step; the control endpoint takes no memory |
| BuffStatus.ServicesAll | pico_firmware/src/lib/rp2040/dcd_rp2040.c:152-184 | every bit of the snapshot is serviced, except that endpoint 1 IN is put off exactly when some other OUT bit is set |
| BuffStatus.ServicesInOrder | pico_firmware/src/lib/rp2040/dcd_rp2040.c:152-184 | each once, as EP0 OUT, EP0 IN, other OUT ascending, other IN ascending |
| BuffStatus.StatusRegister.HandleBuffStatus | pico_firmware/src/lib/rp2040/dcd_rp2040.c:152-184 | services that order, and every bit not serviced stays pending whatever the controller raises meanwhile |
| BuffStatus.StatusRegister.HandleOuts | pico_firmware/src/lib/rp2040/dcd_rp2040.c:167-175 | all other OUT bits ascending, dropping endpoint 1 IN from the snapshot |
| BuffStatus.StatusRegister.HandleIns | pico_firmware/src/lib/rp2040/dcd_rp2040.c:177-183 | the remaining IN bits ascending |
| HostPool.Fills | pico_firmware/src/lib/rp2040/hcd_rp2040.c:233-390 | up to fifteen opens of distinct nonzero addresses fill the slots in order |
| HostPool.LookupFindsIff | pico_firmware/src/lib/rp2040/hcd_rp2040.c:56-66 | lookup by address finds the entry opened for it exactly when its number is not 0 |
| HostPool.RunHaltsIff | pico_firmware/src/lib/rp2040/hcd_rp2040.c:306-390 | opening any number of endpoints trips an assertion exactly if one of them is polled and not an IN endpoint |
| HostPool.InterruptBuffersApart | pico_firmware/src/lib/rp2040/hcd_rp2040.c:246-304 | for every number of opens: interrupt endpoints have distinct numbers below 15 and 64-byte buffers inside the memory, apart from each other and from the control endpoint's first 128 bytes, exactly unless the last one opened is an interrupt endpoint in a slot that another kind has had since the fifteenth open; then its number is 255 |
| HostPool.LaterOpensEvict | pico_firmware/src/lib/rp2040/hcd_rp2040.c:233-244 | after any number of opens from fifteen on, the first fourteen endpoints are found where they were, the last one is found in the last slot, and all between are lost |
| HostPool.EndpointPool.NextFreeInterruptEp | pico_firmware/src/lib/rp2040/hcd_rp2040.c:233-244 | the first free slot gets its number; the last slot is returned when none is free |
| HostPool.EndpointPool.HcdEdptOpen | pico_firmware/src/lib/rp2040/hcd_rp2040.c:246-390 | one open sets up the first free slot, or the last, as the bytes of the descriptor say, section 9.6.6 of the USB 2.0 specification, and touches no other; a polled OUT endpoint is an error |
| HostPool.EndpointPool.GetDevEp | pico_firmware/src/lib/rp2040/hcd_rp2040.c:56-66 | the control endpoint for number 0, else the first configured slot of that address |
| LegacyRing.PutAppends | pico_firmware/src/legacy/queueing/queue.c:33-41 | a put appends to the queue the ring stands for |
| LegacyRing.GetTakesOldest | pico_firmware/src/legacy/queueing/queue.c:26-31 | a get takes its oldest element, whose slot it returns |
| LegacyRing.Counts | pico_firmware/src/legacy/queueing/queue.c:10-24 | empty and full are exactly 0 and capacity - 1 elements; the size is the count modulo 256, across wraparound |
| LegacyRing.SizeExactIff | pico_firmware/src/legacy/queueing/queue.c:22-24 | the 8-bit size is exact exactly below 256 elements |
| LegacyRing.RingIsQueue | pico_firmware/src/legacy/queueing/queue.c:10-41 | every run of puts and gets is the same run of a bounded queue of capacity - 1 elements |
| LegacyRing.SlotStable | pico_firmware/src/legacy/queueing/queue.c:26-41 | the slot a get returned survives any number of puts until the next get |
| LegacyRing.StableOnlyUntilNextGet | pico_firmware/src/legacy/queueing/queue.c:26-41 | and no longer: after another get two puts overwrite it |
| LegacyRing.Queue.QSize | pico_firmware/src/legacy/queueing/queue.c:22-24 | the number of queued elements modulo 256 |
| LegacyRing.Queue.QGet | pico_firmware/src/legacy/queueing/queue.c:26-31 | NULL exactly when empty, else the oldest element's slot, and the element leaves the queue |
| LegacyRing.Queue.QPut | pico_firmware/src/legacy/queueing/queue.c:33-41 | on a full ring it waits and changes nothing; else the element is appended and its slot returned |
| LineEncoding.GetSet | pico_firmware/src/legacy/bit/bit.h:17-26 | a bit that is set reads back, and every other bit of the array is unchanged |
| LineEncoding.HighestFirst | pico_firmware/src/legacy/bit/bit.h:10-20 | the bits of an octet in the order of the array, the highest first, make up its value |
| LineEncoding.DecodesLevels | pico_firmware/src/legacy/usb_pio/pio_usb.h:15-21 | decoding the levels of any bits gives back the bits; section 7.1.8 of the USB 2.0 specification |
| LineEncoding.StoresWord100Iff | pico_firmware/src/legacy/usb_pio/pio_usb.c:77-124 | the words the loop and the final push store number more than the array's 100 exactly when the packet has more than 198 bytes |
| LineEncoding.AllWordsArePacket | pico_firmware/src/legacy/usb_pio/pio_usb.c:88-124 | those words unpack to the sync pattern, the levels of the payload, then SE0, whatever their number |
| LineEncoding.SendWords | pico_firmware/src/legacy/usb_pio/pio_usb.c:75-132 | the loop ends with exactly these words, or stops after the first 100 of them exactly when there are more |
| LineEncoding.AlignWord | pico_firmware/src/legacy/usb_pio/pio_usb.c:53-57 | the empty symbols below a short word are skipped and no others |
| LineEncoding.ReadPacket | pico_firmware/src/legacy/usb_pio/pio_usb.c:34-73 | the buffer's first bits are the decoded levels of the words up to the empty one, and its other bits stay |
| LineEncoding.ReadsPieces | pico_firmware/src/legacy/usb_pio/pio_usb.c:43-69 | whatever pieces the line is cut into, each word aligned high or low, the reader sees all levels in order |
| LineEncoding.SentIsRead | pico_firmware/src/legacy/usb_pio/pio_usb.c:34-73 | for all bytes whose levels are on the line, and every cut of them into words, the reader's buffer ends up with the bytes |
| LineEncoding.WireIsRead | pico_firmware/src/legacy/usb_pio/pio_usb.c:34-132 | what the sender's words put on the line before SE0, cut in any way, is read as the sync pattern's byte and then exactly the payload |
| LineEncoding.StuffsIff | pico_firmware/src/legacy/usb_pio/pio_usb.c:92-105 | the standard's stuffing inserts nothing exactly when no six ones follow each other |
| LineEncoding.LineIsStandardIff | pico_firmware/src/legacy/usb_pio/pio_usb.c:92-105 | what the code puts on the line is what the standard asks for exactly in that case |

## Left out

Assumptions of the model:

- The SDK's `queue_t` is taken as a bounded queue of 20 whose add and remove block; only core 1 removes from tx and adds to rx.
- The wire holds a frame until the other side takes it. The waiting pin does not ensure this, as `SyncPin.StalePinIff` shows; the code relies on delays.
- Core 1 is taken to be the only user of the receive buffer in `messages.c`. In the code `knock_on_slave_edpt` on core 0 of the master uses the same array (lines 167-175), which can overwrite a message that core 1 is copying.
- Messages enqueued by core 0 have at most 1025 bytes of payload, and those of the master do not carry the flag of a data query; all callers satisfy this.
- `malloc` succeeds.
- A failed assertion or a call of `error` stops core 0 of its board; the USB controller still sends what is in a buffer. In a build without assertions, a failed `runtime_assert` only lights an LED.
- `NoDeadlock` names a full rx queue as a way to stop: core 0 blocked on a full tx while core 1 is blocked on a full rx is a real deadlock that the model does not rule out.
- A setup packet leaves the buffer of 0x80 as it is, and the PC may read that buffer, or send its next setup packet, at any time.
- The controller completes an armed buffer with what it sent, or with a packet no longer than armed; a handler is atomic with respect to it.
- Sizes and offsets of the USB memory and the layout of its registers are those of the RP2040 and are constants here.

Not modelled:

- SpiFraming.SpiPort.ReceiveBlocking: does not model the delay between header and payload, nor the bounds of the caller's buffer; `LoopsAgree` shows that frames fit it.
- SyncRound.Board.SyncSlave: one undisturbed round, in which core 0 adds nothing to tx and takes nothing from rx; the interleavings are in `SyncTheorems`.
- TransferEngine.HwEndpoint.StartNextBuffer: single buffering only; the double-buffered bit is rejected by `hw_endpoint_xfer_continue`, and `partial` is always false when it returns. A packet that is copied has to lie in the caller's memory and fit the hardware buffer, or the code would write elsewhere.
- TransferEngine.HwEndpoint.SyncEpBuffer: the 64-byte reserve buffer that replaces a null pointer is taken as zeroed.
- SlaveHost.HostController.HcdEdptXfer: the engine's state is modelled for the control endpoint only; the theorems about control reads are for requests below 1024 bytes, whose length fits its field.
- SlaveHost.HostController.Work: a setup message of fewer than 8 bytes, an endpoint descriptor of fewer than 7, and a descriptor or data message for endpoint number 0 halt the model; transfers on other endpoints are recorded as started and their packets are not followed, because the code copies each packet of a longer one to the start of the buffer while counting all of them.
- ControlRead.WriteOnSlave: the data stage of a write with data is not sent by the code either.
- AddressRegister.WrittenWhenAnsweredIff: packets of other endpoints reach their drivers, which are not modelled, so what those do to other endpoints is not either.
- SlaveHost.SendEventSays: where the code would write past its 1000-byte buffer the model halts.
- MasterDevice.DeviceController.RegisterResponse: where the code would write past its 1024-byte buffer the model halts.
- MasterDevice.DeviceController.HandleSetupResponse: drivers are reduced to the check of the interface class; `validate_driver_config` does nothing in the code. A walk that never ends, or leaves the buffer, counts as halted.
- MasterDevice.DeviceController.XferCompleteNew: the packet in USB memory, which the code reads for SET_ADDRESS, is taken to be the one copied when it came; drivers' own completions are not modelled.
- DescriptorWalk.Walk: an interface descriptor in the last five bytes of the buffer counts as having class 0; what registering does inside a driver is left out.
- LineEncoding.SendWords: when the symbols end on a word boundary the code shifts a zero word by 32 bits, which C leaves open; the model takes the result as zero.
- LineEncoding.ReadPacket: the words are the reader's input, first symbol lowest, as the receiving state machine would have to fill them; that machine, and the order marked as unfinished in the code, are not part of this model.
- LegacyRing.Queue.QPut: one look at the ring; the loop that looks again until another thread has made room is left to the caller.
- `reverse` in `bit.h`, the event queue and the endpoint registry of the old firmware: unfinished or trivial.
- Pins other than the waiting and attached ones, LEDs, clocks, delays, debug output, `send_string_message` (its enqueue is commented out), the test drivers `fake_spi` and the legacy mains.
- The mass-storage and keyboard drivers, stalls, endpoint closing, and attaching to the bus.
