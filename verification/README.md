# A Dafny model of rusbmux

rusbmux multiplexes TCP-like connections to iOS devices over one USB pipe per device, and
keeps a registry of the devices reachable over USB and over the network. This project models
its stateful core and proves what that core promises.

- **Streams** (`Conn`, `StreamSpec`, `StreamInvariant`, `FlowControl`, `PollExact`, `PollEffect`,
  `Stream`).
  A `RusbmuxStream` is a hand-written poll state machine over two bounded channels and a
  connection with 32-bit counters. `StreamSpec` gives each poll function as a function on
  values and splits it into single steps, so that runs interleave the stream's steps with
  anything the reader loop, the writer loop and other connections do, even inside a poll. A
  chronological trace records what was taken, sent and handed out. The class in `Stream` has the source's
  fields and loops, and every method is proved equal to its function.
- **Framing** (`Packets`, `Codec`, `Framing`). Packets, the builder, the byte formats, the
  writer loop with its reused header buffer, and `from_reader`.
- **Routing** (`Ports`, `Router`). Port allocation and demultiplexing.
- **Registry** (`Registry`, `RegistryHistory`, `RegistryDaemon`, `Listener`). The device map, its handlers as
  atomic steps, the broadcast events, and a `Listen` client.
- **Edges** (`Connect`, `RusbReader`, `RusbWriter`, `Hotplug`). The daemon's client-to-device
  copying, the buffering over bulk transfers, and hotplug by polling.
- **End to end** (`EndToEnd`). A stream's bytes from `poll_write` through the writer channel, the
  writer loop and the bulk transfers to the frames the device parses.

## What turned out to hold only under a condition

- The handshake's final ACK is the one section 3.5 of RFC 9293 asks for exactly when the
  device numbers its own stream from 0 and acknowledges the SYN alone
  (`HandshakeConformsExactly`).
- A packet parked by a full channel is sent without another look at the window, so a device that
  shrinks its window can be overrun (`ShrinkingWindowBreaksSafety`). A run is free of overruns
  exactly if each packet, at the moment it is sent, passes a test on the connection's own fields:
  `sent_bytes.wrapping_sub(device_received) + last_write_len <= device_window << 8`
  (`WindowSafetyExactly`). An overrun needs a packet, taken while the data was parked, that moves
  the right edge left of the data's end (`OverrunsExactly`); without one every write stays inside
  (`FlowControlIsSafe`). The counters are exact either way (`CountersAreExact`).
- What callers are told was written is what was sent exactly if each write is completed by a call
  whose buffer starts with the bytes its packet was built from (`WritesAreExactlyOnce`,
  `AbandonedWriteIsMisreported`).
- In the daemon's loop a chunk fits the window exactly if the same kind of test says so
  (`ChunkFitsExactly`); it can fail only directly after a cancelled `recv`, and only if the device
  shrank its window (`ChunksFitTheWindow`, `CancelledRecvCanOverrun`).
- A frame arrives, with what follows it intact, exactly if the endpoint accepted all its bytes
  (`FrameArrivesExactly`). As long as failing writes put nothing on the pipe, the other packets
  arrive under the numbers they were stamped with, so a lost one shows as a gap
  (`SurvivorsParseBack`).
- A builder's packet survives the pipe exactly when its length fits the 32-bit length field
  (`BuilderMadeRoundTripsExactly`).
- Registration is sure to succeed with 62 live routes, not with 63, and a port is quarantined
  for 1023 registrations, not 1024; port 1 is not quarantined at all (`AlwaysAvailable`,
  `SixtyThreeCanFail`, `Quarantine`, `QuarantineIsTight`, `PortOneRepeats`).
- Registry events agree with the map exactly until a stale USB entry is replaced under another
  id, which leaves the old id announced for good, or a forced AddDevice fails while the old
  network entry is visible, which leaves a connected device hidden
  (`HandlersKeepSyncExactly`, `DriftsHappen`).
- The 37 bytes written at start-up are still counted when the first frame's zero-length packet is
  decided. The first frame is always a 36-byte SYN, so every boundary is right exactly if the
  packet size is not 2, 3, 4, 6, 9, 12, 18, 36 or 73 (`BoundariesAreRightExactly`). No bulk
  endpoint has such a size: USB allows 8, 16, 32, 64, 512 and 1024.
- A zero-length bulk transfer looks like the end of the stream to whoever reads
  (`EmptyReadsExactly`).

The comment at `src/conn/usb.rs:87` expects the device's first acknowledgment to be 1; the
code accepts any value, and so does the model.

## Model

| member | source | states |
|---|---|---|
| Common.Sub32Exact | src/conn/usb.rs:425 | the wrapping subtraction is the true difference of two byte totals less than 2^32 apart, however often either has wrapped |
| Common.Add32Tracks | src/conn/usb.rs:504-506 | the wrapping counter after adding is the 32-bit image of the unbounded total |
| Conn.CalcSendable | src/conn/usb.rs:416-432 | never more than one packet's payload |
| Conn.SendableIsTheRoomLeft | src/conn/usb.rs:404-432 | with less than 2^32 bytes in flight, the 32-bit computation gives the unbounded room left up to the right edge, capped at one packet, and 0 when a shrunk window no longer covers what is in flight |
| Conn.UsbDeviceConn.NewFrom | src/conn/usb.rs:157-192 | a connection starts with the handshake's counters and a fresh sendable count |
| Conn.UsbDeviceConn.UpdateStates | src/conn/usb.rs:393-402 | a TCP packet sets the number to acknowledge, the device's acknowledgment and its window; a packet without TCP header changes nothing |
| Conn.UsbDeviceConn.UpdateSendable | src/conn/usb.rs:404-414 | refreshes the cached sendable count from the current counters and changes nothing else |
| Conn.UsbDeviceConn.AddSent | src/conn/usb.rs:504-515 | advances the sent counter modulo 2^32 and changes nothing else |
| Conn.UsbDeviceConn.SetDropped | src/conn/usb.rs:527-530 | marks the connection dropped and changes nothing else |
| Conn.Perform | src/conn/usb.rs:26-119 | when the handshake succeeds, when it is refused and with which error, the packets it sends in each case, a SYN always first, and the counters it returns |
| Conn.NewConnectionHasItsWindow | src/conn/usb.rs:157-192 | a new connection has its ports and counters, nothing in flight, and the device's whole window to fill, one packet at a time |
| Conn.HandshakeConformsExactly | src/conn/usb.rs:87-104 | the final ACK is SEQ = ISS+1, ACK = IRS+1 exactly when the SYN-ACK's sequence number is 0 and its acknowledgment 1 |
| StreamSpec.PollReadIsARun | src/provider.rs:301-322 | a read poll is a run of single channel operations and copies, so results about runs hold of it |
| StreamSpec.PollWriteIsARun | src/provider.rs:326-358 | a write poll is a run of single steps for the caller's buffer |
| StreamInvariant.StepKeepsInv | src/provider.rs:228-372 | every step of the stream, and everything other tasks do to the channels, keeps the stream invariant |
| StreamInvariant.InvOnEveryRun | src/provider.rs:228-372 | the invariant holds after every interleaving from a fresh stream |
| StreamInvariant.PollsKeepInv | src/provider.rs:300-372 | the invariant holds between polls, whichever poll is called and however it ends |
| StreamInvariant.WritesAreExactlyOnce | src/provider.rs:274-297 | on every run, the reported prefixes concatenate to exactly the payloads enqueued if and only if each write is completed by a call whose buffer starts with the bytes the packet was built from |
| StreamInvariant.AbandonedWriteIsMisreported | src/provider.rs:335-357 | a caller that gives up on a pending write and passes other bytes is told those were written, when the first ones were sent |
| StreamInvariant.WriteReportsWhatItSent | src/provider.rs:335-357 | each reported count is the number of bytes sent; the reported bytes are the sent ones iff the completing buffer starts with them |
| StreamInvariant.ReadsRefineTheChannel | src/provider.rs:250-272 | bytes delivered followed by the read buffer are the payloads of all packets taken, in order, those taken inside writes included |
| StreamInvariant.TakesAreAcknowledgedNext | src/provider.rs:306-321 | the next event after taking a packet is a flag acknowledging its sequence number plus length; nothing is delivered, taken or sent in between |
| StreamInvariant.AckDiscipline | src/provider.rs:228-272 | until shutdown, ACKs sent = packets taken minus the one still owed |
| StreamInvariant.OneResetPerStream | src/provider.rs:364-372 | at most one reset is ever sent, and one was sent exactly when the connection is marked dropped |
| FlowControl.StepKeepsFlow | src/provider.rs:228-297 | one step, whatever windows the device announces, keeps the bytes in flight below the widest window and every packet built inside the window of its time |
| FlowControl.CountersAreExact | src/conn/usb.rs:404-432 | on every run, shrinking windows included, the wrapped counters give the true number of bytes in flight, and the cached count is the room left when no ACK is owed |
| FlowControl.PacketsAreBuiltInside | src/provider.rs:344-355 | every data packet ended inside the window in force when it was built, and nothing else was sent between its building and its sending |
| FlowControl.OverrunsExactly | src/provider.rs:250-297 | a data packet overruns the window exactly if a packet taken while it was parked moved the right edge left of its end and none taken since moved it back |
| FlowControl.ParkedPacketFitsExactly | src/provider.rs:274-285 | after any run, a packet about to be sent ends inside the window now in force exactly if a test on the 32-bit fields says so |
| FlowControl.WindowSafetyExactly | src/provider.rs:335-357 | a run never overruns the device's window if and only if everything it sends passes that test at that moment |
| FlowControl.FlowControlIsSafe | src/conn/usb.rs:393-432 | against a device that never moves its right edge left, every data packet ends inside the window, everything in flight fits it, and a parked packet still fits |
| FlowControl.ShrinkingWindowBreaksSafety | src/provider.rs:340-355 | a run in which the device shrinks its window while a packet is parked, and the packet is sent beyond the window |
| PollExact.ReadOutcome | src/provider.rs:301-322 | a read poll is ready, pending or failed exactly by a closed condition on free send slots, owed ACKs and the first nonempty queued packet |
| PollExact.ReadyReadDelivers | src/provider.rs:309-316 | a ready read ends with one copy as large as buffer and room allow, never empty when there is room |
| PollExact.PendingReadIsBlocked | src/provider.rs:306-321 | a pending read stops at a full channel with an ACK owed or with nothing to deliver and nothing to take, and polling again changes nothing |
| PollExact.WriteOutcome | src/provider.rs:326-358 | a write poll is ready, pending or failed exactly by a closed condition, and reports a count fixed by the window after the packets it must take |
| PollExact.PendingWriteIsBlocked | src/provider.rs:335-357 | a pending write stops at a full channel with something to send or at a closed window with nothing to take, and polling again changes nothing |
| PollEffect.ReadsTakeThenCopy | src/provider.rs:301-322 | every read poll, whatever its outcome: packets taken from the front of the receive queue and acknowledged on the send queue, then, if ready, one copy of as much of what is buffered as there is room for, and nothing else |
| PollEffect.WritesSendOnePacket | src/provider.rs:326-358 | every write poll, whatever its outcome: packets taken and acknowledged, then, if ready, exactly one data packet put last on the send queue, the parked one or the reported prefix of the buffer, and counted as sent; a failed one drops what was parked |
| PollEffect.ShutdownResetsOnce | src/provider.rs:364-372 | when a shutdown is ready; a ready one has sent one bare reset with the current numbers and marked the connection dropped, unless it was dropped before, and any other has done nothing |
| Stream.RusbmuxStream.PollSendFlag | src/provider.rs:228-248 | sends the flag and clears the owed ACK, or changes nothing when the channel is full or gone |
| Stream.RusbmuxStream.PollRecv | src/provider.rs:250-272 | takes one packet, updates the counters, buffers its payload and owes an ACK |
| Stream.RusbmuxStream.PollSendPending | src/provider.rs:274-297 | enqueues the packet and counts its bytes, parks it when full, drops it when the channel is gone |
| Stream.RusbmuxStream.PollRead | src/provider.rs:301-322 | the loop terminates and does what the read specification says; the reader's buffer grows by exactly the delivered bytes |
| Stream.RusbmuxStream.PollWrite | src/provider.rs:326-358 | the loop terminates and does what the write specification says |
| Stream.RusbmuxStream.PollShutdown | src/provider.rs:364-372 | sends one reset and marks the connection dropped, or leaves it for the next poll |
| Stream.RusbmuxStream.constructor | src/provider.rs:151-160 | a new stream has nothing buffered, parked or owed and a fresh sendable count |
| Packets.EncodePayload | src/parser/device_mux/mod.rs:250-269 | yields as many bytes as the payload's announced length |
| Codec.TcpLayout | src/parser/device_mux/builder.rs:110-136 | the TCP headers of the builder have the bytes of section 3.1 of RFC 9293, window 128 KiB >> 8, and ACK, RST, SYN at bits 0x10, 0x04, 0x02 |
| Codec.HeaderLayout | src/parser/device_mux/mod.rs:470-505 | the byte layout of both mux headers: protocol numbers 0, 1, 2 and 6, length, magic and the two packet numbers |
| Codec.TcpFrameLayout | src/parser/device_mux/builder.rs:202-220 | a builder's TCP frame: protocol 6, its own length, the magic 0xfeedface, the TCP header, the data |
| Codec.StartUpBytes | src/device/usb.rs:77-110 | the version packet (2.0) and the setup packet (one byte, 7) byte for byte |
| Codec.FlagByteRoundTrip | src/parser/device_mux/mod.rs:96-103 | the order of the eight flag bits, from FIN at the lowest to CWR at the highest |
| Codec.TcpRoundTrip | src/parser/device_mux/mod.rs:96-103 | an option-free TCP header reads back as written |
| Codec.HeaderRoundTrip | src/parser/device_mux/mod.rs:417-450 | a mux header in its protocol's form reads back as written, leaving exactly what follows |
| Codec.PayloadRoundTrip | src/parser/device_mux/mod.rs:205-230 | a payload that fits its protocol decodes from its encoding |
| Codec.RoundTrip | src/parser/device_mux/mod.rs:92-141 | a consistent packet reads back from its encoding followed by anything, leaving exactly what follows |
| Codec.ParsesExactly | src/parser/device_mux/mod.rs:92-141 | bytes parse as a packet exactly if they are the encoding of that packet and it is well formed (reserved TCP bits aside) |
| Codec.ParseFailsExactly | src/parser/device_mux/mod.rs:92-141 | which bytes do not parse, and with which error, as one list of conditions in order |
| Codec.BuilderMadeRoundTripsExactly | src/parser/device_mux/builder.rs:139-250 | a builder's packet reads back exactly when its total length is below 2^32 |
| Codec.StreamRoundTrip | src/parser/device_mux/mod.rs:92-167 | any number of frames back to back read back as the packets they were made from |
| Framing.StampAllAt | src/device/usb.rs:288-297 | in the send field the start plus the V2 packets before it, mod 2^16, written or not; in the receive field the receive count; everything else, and a V1 packet, unchanged |
| Framing.WriterFrameIsEncode | src/device/usb.rs:300-333 | the split writes equal `encode` on every packet except a V1 packet with a TCP header |
| Framing.DeviceWriter.CopyToHeader | src/device/usb.rs:310-313 | overwrites exactly one region of the header buffer |
| Framing.DeviceWriter.WriteHeaders | src/device/usb.rs:300-333 | the header write puts this packet's header bytes on the pipe and nothing of an earlier packet, whatever the header buffer held |
| Framing.DeviceWriter.WritePacket | src/device/usb.rs:288-343 | one turn writes this packet's frame, or what the endpoint accepts of it; a failed header write skips the payload and `submit_end`, and the number is used up all the same |
| Framing.DeviceWriter.WriterLoop | src/device/usb.rs:259-345 | the loop writes the frames of its packets in order, however each write ends, and ends as many transfers as it wrote headers |
| Framing.OutputIsEncodings | src/device/usb.rs:274-344 | for builder's packets and writes that end whole or without a byte, the loop's output is the concatenated encodings of the stamped packets that were written |
| Framing.SurvivorsParseBack | src/device/usb.rs:259-345 | that output parses back as exactly the packets written, in order and under their stamped numbers |
| Framing.FrameArrivesExactly | src/device/usb.rs:300-343 | one frame parses back and leaves what follows intact exactly if every byte of it was accepted, whatever the writes answered |
| Framing.WriterOutputParsesBack | src/device/usb.rs:259-345 | when all writes succeed, the loop's whole output parses back as its packets, each V2 one with its 1-based index mod 2^16 as send number and the receive count as receive number |
| Framing.PipeReader.ReadExact | src/parser/device_mux/mod.rs:134 | takes exactly the bytes asked for or reports the end of the pipe |
| Framing.PipeReader.HeaderFromReader | src/parser/device_mux/mod.rs:417-450 | reads a header in two parts as the specification of parsing says |
| Framing.PipeReader.FromReader | src/parser/device_mux/mod.rs:92-141 | reads one packet, or reports which error, as the specification of parsing says |
| Ports.Probe | src/device/packet_router.rs:104-116 | finds the first free probe, or none exactly because all are taken |
| Ports.ProbedCount | src/device/packet_router.rs:104-106 | 64 consecutive probes try at least 63 ports, even across the wrap |
| Ports.AlwaysAvailable | src/device/packet_router.rs:101-125 | with at most 62 routes a port is found from any counter value |
| Ports.FailsExactly | src/device/packet_router.rs:119-124 | a call fails exactly when every port it tries is taken |
| Ports.SixtyThreeCanFail | src/device/packet_router.rs:104-124 | 63 routes can make a call fail, when the counter wraps |
| Ports.Quarantine | src/device/packet_router.rs:104-117 | a port from 2 up is not handed out by any of the next 1023 calls, whatever routes exist at each |
| Ports.QuarantineIsTight | src/device/packet_router.rs:104-117 | the 1024th call can hand the port out again |
| Ports.PortOneRepeats | src/device/packet_router.rs:105-106 | port 1 can be handed out twice in a row |
| Router.StepKeepsInv | src/device/packet_router.rs:72-155 | every router operation keeps each live route's deliveries equal to its packets since registration |
| Router.LiveRoutesGetTheirPackets | src/device/usb.rs:213-255 | after any run a live route was given exactly the non-reset TCP packets for its port parsed since it was registered, in order |
| Router.IncomingOnTable | src/device/packet_router.rs:140-155 | one parsed packet, seen from one port: a live route gets it and stays, a reset or a dead receiver removes the route, every other route is unchanged |
| Router.OthersOnTable | src/device/packet_router.rs:127-138 | unregistering removes one route, clearing removes all, and nothing else changes |
| Router.RegisterOnTable | src/device/packet_router.rs:101-125 | registration keeps every live route as it is, drops the dead ones and adds the one port handed out, if any |
| Router.RegisteredRouteStays | src/device/usb.rs:213-255 | a port handed out after any run stays routed, with exactly the packets for it parsed since, until it is unregistered, its receiver goes, a reset for it is parsed or the table is cleared |
| Router.HeaderlessPacketsReachNobody | src/device/packet_router.rs:140-155 | a packet without TCP header changes no route |
| Router.RegisterAddsOneRoute | src/device/packet_router.rs:101-125 | with at most 62 live routes registration adds one unused port, drops dead routes and leaves live ones unchanged |
| Router.PacketRouter.CleanupDead | src/device/packet_router.rs:72-81 | keeps exactly the connected routes |
| Router.PacketRouter.Register | src/device/packet_router.rs:101-125 | the probing loop over the 16-bit counter hands out what the port specification says |
| Router.PacketRouter.Unregister | src/device/packet_router.rs:133-138 | removes one route |
| Router.PacketRouter.Clear | src/device/packet_router.rs:128-130 | removes all routes |
| Router.PacketRouter.Route | src/device/packet_router.rs:140-155 | delivers to the destination port's route, removes the route if its receiver is gone, drops the packet if there is none |
| Router.ReaderLoop.OnRead | src/device/usb.rs:179-256 | counts parsed packets mod 2^16, unregisters on reset, routes the rest, clears the routes on an I/O error |
| Registry.UniqueNetwork | src/bin/rusbmux/utils.rs:48-53 | without duplicates the first match of the scan is the only one |
| Registry.UsbConnectedKeeps | src/bin/rusbmux/watcher/usb.rs:17-32 | a USB connect keeps the registry invariant, stale replacement and shadowing included |
| Registry.RemovedKeeps | src/bin/rusbmux/watcher/mod.rs:50-105 | removing a device keeps it, uncovering the network device of a removed USB device |
| Registry.InsertNetworkKeeps | src/bin/rusbmux/watcher/network.rs:31-43 | adding a network device keeps it, announced or hidden |
| Registry.AddDeviceKeeps | src/bin/rusbmux/handler/add_device.rs:54-110 | AddDevice keeps it in all its outcomes, a failed forced replacement included |
| Registry.StepKeepsInv | src/bin/rusbmux/watcher/usb.rs:15-38 | every handler keeps the registry invariant |
| Registry.OneVisibleEntryPerUdid | src/bin/rusbmux/utils.rs:28-46 | in every reachable state there is at most one USB and one network entry per UDID, and exactly one visible entry, USB preferred |
| Registry.HandlersKeepSyncExactly | src/bin/rusbmux/handler/add_device.rs:62-95 | a handler keeps events and map in agreement exactly unless it replaces a stale USB entry under another id or a forced AddDevice fails over a visible entry |
| Registry.DriftsHappen | src/bin/rusbmux/handler/add_device.rs:89-92 | both exceptions are reachable |
| Registry.RunKeepsSync | src/bin/rusbmux/watcher/usb.rs:15-38 | a run in which no handler drifts keeps events and map in agreement |
| RegistryHistory.MapFollowsHistory | src/bin/rusbmux/watcher/network.rs:17-63 | after any legal history, an id is in the map with a device exactly if its connect was accepted and it has not been disconnected or replaced since |
| RegistryHistory.StepChangesMap | src/bin/rusbmux/watcher/usb.rs:23-29 | each handler changes the map exactly by what it accepts and what it ends |
| RegistryHistory.HandlersTellTheChange | src/bin/rusbmux/watcher/mod.rs:72-102 | each handler sends, for each id, exactly the events its change of visibility calls for, each at most once, with the exceptions named |
| RegistryHistory.NewsOrder | src/bin/rusbmux/watcher/usb.rs:18-31 | the network device is said to be gone before the device that takes its place is announced; a removed USB device is said to be gone last |
| RegistryHistory.HiddenDeviceComesForward | src/bin/rusbmux/watcher/network.rs:31-43 | a network device that connects under a USB twin is taken in silently, and visible and announced once the twin is removed |
| RegistryDaemon.DeviceRegistry.HasUsbWithUdid | src/bin/rusbmux/utils.rs:28-32 | the scan answers whether a USB entry of the UDID exists |
| RegistryDaemon.DeviceRegistry.HasNetworkWithUdid | src/bin/rusbmux/utils.rs:34-38 | the scan answers whether a network entry of the UDID exists |
| RegistryDaemon.DeviceRegistry.FindNetworkIdByUdid | src/bin/rusbmux/utils.rs:48-53 | the scan finds the network entry of the UDID |
| RegistryDaemon.DeviceRegistry.VisibleDevices | src/bin/rusbmux/handler/device_list.rs:11-20 | lists each entry that is not shadowed exactly once |
| RegistryDaemon.DeviceRegistry.OnUsbConnected | src/bin/rusbmux/watcher/usb.rs:17-32 | the handler is the atomic step and keeps the invariant |
| RegistryDaemon.DeviceRegistry.AnnounceRemoval | src/bin/rusbmux/watcher/mod.rs:72-102 | which events a removal sends, by kind of device and what it shadowed |
| RegistryDaemon.DeviceRegistry.RemoveDevice | src/bin/rusbmux/watcher/mod.rs:50-105 | the removal is the atomic step and reports whether there was such a device |
| RegistryDaemon.DeviceRegistry.OnNetworkConnected | src/bin/rusbmux/watcher/network.rs:17-44 | the handler is the atomic step and keeps the invariant |
| RegistryDaemon.DeviceRegistry.OnNetworkDisconnected | src/bin/rusbmux/watcher/network.rs:45-63 | the handler is the atomic step and keeps the invariant |
| RegistryDaemon.DeviceRegistry.AddDevice | src/bin/rusbmux/handler/add_device.rs:54-110 | the handler is the atomic step and keeps the invariant |
| Listener.StepKeepsListener | src/bin/rusbmux/handler/listen.rs:15-89 | registry changes, the snapshot and each received event keep every id's standing right up to outstanding events |
| Listener.ListenersConverge | src/bin/rusbmux/handler/listen.rs:15-38 | for any subscription and snapshot point, a drained listener shows an id of the map iff it is not shadowed (lost ids aside), and otherwise only stale ids |
| Listener.ListenersMatchDeviceList | src/bin/rusbmux/handler/listen.rs:96-122 | if no handler drifts after the subscription, whatever happened before it, a drained listener shows exactly the visible devices |
| Listener.CatchesUpOrEnds | src/bin/rusbmux/handler/listen.rs:40-89 | a listener at most 32 events behind catches up by receiving; one further behind ends at its next turn |
| Connect.NothingIsCutOff | src/bin/rusbmux/handler/connect.rs:95-126 | bytes read from the client are the bytes sent followed by those buffered, and a close leaves none behind |
| Connect.ChunksAreSentOnce | src/bin/rusbmux/handler/connect.rs:112-126 | every chunk is as much as is buffered, or else read, up to the sendable count, and numbered right; at client end with nothing buffered, and only then, a reset is sent instead |
| Connect.ChunkFitsExactly | src/bin/rusbmux/handler/connect.rs:112-126 | after any run and any windows, the next chunk ends inside the window in force exactly if a test on the 32-bit fields says so |
| Connect.ChunksFitTheWindow | src/conn/usb.rs:351-361 | a chunk fits the window unless the turn before it was a cancelled `recv` and the device has shrunk its window |
| Connect.CancelledRecvCanOverrun | src/conn/usb.rs:356-358 | a `recv` cancelled on a packet that closes the window lets the next chunk overrun it |
| Connect.ReceivedPacketsAreAcked | src/conn/usb.rs:351-361 | a completed receive answers with one ACK for exactly that packet |
| Connect.DaemonConnection.ClientRead | src/bin/rusbmux/handler/connect.rs:131-151 | buffered bytes go first, the client is read only when none are, and at most the sendable count is split off |
| Connect.DaemonConnection.OnClient | src/bin/rusbmux/handler/connect.rs:112-126 | one turn for the client sends one chunk, or closes at its end |
| Connect.DaemonConnection.OnCancelledRecv | src/conn/usb.rs:351-358 | a `recv` dropped before its ACK updates the counters and does nothing else |
| Connect.DaemonConnection.OnDevicePacket | src/bin/rusbmux/handler/connect.rs:105-110 | one turn for the device acknowledges the packet and passes its payload to the client |
| RusbReader.PollsAppendAndCopy | src/usb_backend/rusb/mod.rs:369-438 | one poll, whatever the transfer yields: the data of a transfer taken is appended to what is unread, as much as there is room for is copied, and a transfer stays in flight exactly as long as it has not completed |
| RusbReader.ReadsConserveBytes | src/usb_backend/rusb/mod.rs:376-456 | over any polls, bytes delivered and then unread are those unread at first and the data of the transfers taken, a function of the inputs alone |
| RusbReader.EmptyReadsExactly | src/usb_backend/rusb/mod.rs:389-433 | a ready poll with room copies nothing exactly when a zero-length transfer completes with nothing buffered |
| RusbReader.RusbAsyncReader.ChunkToBuffer | src/usb_backend/rusb/mod.rs:441-456 | copies what fits and stores the chunk with its position if some is left |
| RusbReader.RusbAsyncReader.PollRead | src/usb_backend/rusb/mod.rs:369-438 | the poll does what its specification says and the reader's buffer grows by exactly the delivered bytes |
| RusbWriter.FrameIsOneTransfer | src/usb_backend/rusb/mod.rs:512-556 | a bounded frame is accepted whole whatever the endpoint does, never auto-flushed, and leaves as one transfer |
| RusbWriter.FramesAreTransfers | src/usb_backend/rusb/mod.rs:485-508 | any frames leave as one transfer each, with a zero-length packet where the transfer counter calls for it |
| RusbWriter.WritesKeepBytes | src/usb_backend/rusb/mod.rs:512-556 | in every branch of a write: gathered, submitted at the threshold, lost only with a submission that fails, refused while a transfer is in flight |
| RusbWriter.FlushKeepsBytes | src/usb_backend/rusb/mod.rs:558-615 | a flush loses nothing and leaves nothing gathered unless a transfer was in flight |
| RusbWriter.EndKeepsBytes | src/usb_backend/rusb/mod.rs:485-504 | ending a transfer loses nothing, leaves nothing gathered and clears the counter |
| RusbWriter.TransfersCarryThePipe | src/device/usb.rs:300-343 | the bulk transfers made of the writer loop's packets carry, concatenated, exactly what the loop put on the pipe |
| RusbWriter.TransferBoundaries | src/device/usb.rs:81-115 | after the version and setup packets only the first frame's boundary counts their 37 bytes |
| RusbWriter.DeviceReceivesEveryPacket | src/device/usb.rs:77-115 | the bytes of all bulk transfers ever made parse as the version packet, the setup packet and every packet given to the writer loop, in order with its numbers |
| RusbWriter.BoundariesAreRightExactly | src/usb_backend/rusb/mod.rs:494-502 | whatever the connections send, every frame is marked as its own length calls for exactly if the packet size is none of nine values |
| RusbWriter.FirstFrameIsSyn | src/conn/usb.rs:37-50 | as every connection first sends the SYN of its handshake, the first frame is a SYN of 36 bytes: no data, and only the SYN flag |
| RusbWriter.StreamFramesFit | src/conn/usb.rs:427-431 | every packet a stream enqueues, however stamped, makes a frame within the writer's bound, made of the writer loop's bytes |
| RusbWriter.RusbAsyncWriter.PollWrite | src/usb_backend/rusb/mod.rs:512-556 | gathers the bytes, or flushes above the threshold, or answers as the transfer in flight does |
| RusbWriter.RusbAsyncWriter.WriteAndEnd | src/device/usb.rs:300-343 | the writer loop's two writes of a bounded frame are both accepted, and `submit_end` leaves the writer idle |
| RusbWriter.RusbAsyncWriter.SyncFlushAndZlp | src/usb_backend/rusb/mod.rs:485-504 | submits what is gathered, then a zero-length packet if the counted length is a nonzero multiple of the packet size |
| EndToEnd.ChannelKeepsOrder | src/provider.rs:274-297 | on every run, what was queued for the writer loop followed by everything enqueued is what the loop was given followed by what is still queued |
| EndToEnd.RecordedIsEnqueued | src/provider.rs:228-297 | the ACKs, resets and data packets of the trace are, one for one and in order, what the stream put on the channel |
| EndToEnd.PacketsAreTakenInOrder | src/provider.rs:250-272 | what was taken followed by what is still waiting is what was waiting followed by everything that arrived, in order |
| EndToEnd.SentBytesAreDrainedOrQueued | src/provider.rs:335-357 | the payloads of this stream given to the writer loop, followed by those still queued, are exactly the bytes the stream sent |
| EndToEnd.StreamBytesReachTheDevice | src/device/usb.rs:259-345 | the payloads of this stream in the packets the device parses, followed by those still queued, are byte for byte what the stream sent |
| EndToEnd.ReportedBytesReachTheDevice | src/provider.rs:326-358 | they are also what the callers were told was written, if and only if each write is completed by a call whose buffer starts with what was built |
| Hotplug.PollingTask.Tick | src/usb_backend/rusb/hotplug.rs:29-74 | sends one queued event or scans and queues exactly one event per difference, keeping sent and queued events replayable to the devices last seen |
| Hotplug.ReplayPrefix | src/usb_backend/rusb/hotplug.rs:32-37 | the events sent so far are well formed whatever is still queued |
| Hotplug.DisconnectionsAreMatched | src/usb_backend/rusb/mod.rs:229-245 | for any event stream each disconnection is of an id connected earlier, reported once |
| Hotplug.ReportsAreExact | src/usb_backend/rusb/mod.rs:229-245 | for any event stream, each arrival is reported with its id, each departure of a device that is there with the id of its arrival, and nothing else |
| Hotplug.LiveIdsMatchLiveDevices | src/usb_backend/rusb/mod.rs:229-245 | fed well-formed events, live ids are in bijection with the devices present |
| Hotplug.PolledIdsMatchPolledDevices | src/usb_backend/rusb/hotplug.rs:29-74 | fed what the polling task has sent, live ids are its devices up to the events still queued, and exactly them once the queue is empty |

## Left out

- USB, libusb and nusb calls, sockets, files, mDNS, pairing, TLS, heartbeats, the command line and packaging: their outcomes are parameters of the model.
- XML property lists and `send_plist`: plist payloads are opaque bytes, and `send_plist` ignores the window.
- The usbmux client header codec (`src/parser/usbmux.rs`) and `from_slice` (`src/parser/device_mux/mod.rs:42-90`): the frame format is covered through `from_reader`.
- TCP options: a header with options is an error of the model's parser, and none is ever built.
- Invalid UTF-8 in an error message, which the source replaces on decoding: messages are modelled as their bytes.
- Device-to-client bytes of the daemon loop across a cancelled `recv`: the source loses the packet (`src/conn/usb.rs:356-358`); that direction is proved for streams.
- Interleavings inside a registry handler, in particular around the connection attempt of AddDevice, and inside the snapshot of a listener: each is one atomic step.
- What a listener shows for an id whose forced AddDevice failed: such ids are named by `lost` and excepted.
- The start-up exchange that waits for the version packet, and `attach_conn` and the connections kept for `close_all`: bookkeeping around the modelled state.
- RusbWriter.RusbAsyncWriter.SyncFlushAndZlp: both blocking bulk writes succeed; the writer loop ignores their errors (`src/device/usb.rs:343`).
- Codec.ParsesExactly: bytes whose reserved TCP bits are clear; the decoder drops those bits, so other bytes are not an encoding.
- EndToEnd.StreamBytesReachTheDevice: every write and transfer succeeding, payloads within one packet's bound, and other connections on other source ports.
- RusbWriter.BoundariesAreRightExactly: payloads within one packet's bound, which leaves out `send_plist`, and every write succeeding.
- The callback hotplug source of libusb: any event stream is allowed where ids are assigned.
- Buffer capacities, wakers, tracing and timing.
