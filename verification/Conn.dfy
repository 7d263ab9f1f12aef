// `UsbDeviceConn`: the counters of one TCP-over-USB connection, and the handshake that
// gives them their first values.

module Conn {
  import opened Common
  import opened Packets

  /** The fields of a connection as a value. */
  datatype ConnState = ConnState(
    sourcePort: u16,
    destinationPort: u16,
    sent: u32,
    received: u32,
    sendable: nat,
    deviceWindow: u16,
    deviceReceived: u32,
    dropped: bool)

  /** How many payload bytes the last window announcement still leaves room for. */
  function CalcSendable(sent: u32, deviceWindow: u16, deviceReceived: u32): (n: nat)
    ensures n <= MAX_PACKET_PAYLOAD_SIZE
  {
    var window := deviceWindow * 0x100;
    var unacked := Sub32(sent, deviceReceived);
    if window > unacked then Min(window - unacked, MAX_PACKET_PAYLOAD_SIZE) else 0
  }

  function FreshSendable(c: ConnState): nat {
    CalcSendable(c.sent, c.deviceWindow, c.deviceReceived)
  }

  function InitialConn(source: u16, destination: u16, h: Handshake): ConnState {
    ConnState(source, destination, h.sent, h.received,
              CalcSendable(h.sent, h.deviceWindow, h.deviceReceived),
              h.deviceWindow, h.deviceReceived, false)
  }

  function AfterPacket(c: ConnState, p: Packet): ConnState {
    match p.tcp
    case None => c
    case Some(h) =>
      c.(received := Add32(h.sequenceNumber, PayloadLen(p.payload)),
         deviceReceived := h.acknowledgmentNumber,
         deviceWindow := h.windowSize)
  }

  function Refreshed(c: ConnState): ConnState {
    c.(sendable := FreshSendable(c))
  }

  function AfterSending(c: ConnState, n: nat): ConnState {
    c.(sent := Add32(c.sent, n))
  }

  function BuildFlag(c: ConnState, flags: TcpFlags): Packet {
    BuildTcp(BuildTcpHeader(c.sourcePort, c.destinationPort, c.sent, c.received, flags), [])
  }

  function BuildBytes(c: ConnState, data: seq<u8>): Packet {
    BuildTcp(BuildTcpHeader(c.sourcePort, c.destinationPort, c.sent, c.received, ACK), data)
  }

  /** The widest window a device can announce, in bytes. */
  const MAX_WINDOW: nat := 0xffff * 0x100

  /** How many bytes may still be sent up to the right edge of the window, one packet at most. */
  function RoomLeft(total: nat, edge: nat): nat {
    if edge > total then Min(edge - total, MAX_PACKET_PAYLOAD_SIZE) else 0
  }

  /** With totals instead of wrapped counters: as long as the device has acknowledged no more
      than was sent and less than 2^32 bytes are in flight, the 32-bit computation is the
      unbounded one, also when a shrunk window no longer covers what is in flight. */
  lemma SendableIsTheRoomLeft(total: nat, acked: nat, window: u16)
    requires acked <= total < acked + 0x1_0000_0000
    ensures CalcSendable(total % 0x1_0000_0000, window, acked % 0x1_0000_0000)
         == RoomLeft(total, acked + window * 0x100)
  {
    Sub32Exact(total, acked);
  }

  /** The connection object. Every method mirrors one of the state functions above. */
  class UsbDeviceConn {
    const sourcePort: u16
    const destinationPort: u16
    var sent: u32
    var received: u32
    var sendable: nat
    var deviceWindow: u16
    var deviceReceived: u32
    var dropped: bool

    function State(): ConnState
      reads this
    {
      ConnState(sourcePort, destinationPort, sent, received, sendable, deviceWindow, deviceReceived, dropped)
    }

    constructor NewFrom(source: u16, destination: u16, h: Handshake)
      ensures State() == InitialConn(source, destination, h)
    {
      sourcePort, destinationPort := source, destination;
      sent, received := h.sent, h.received;
      deviceWindow, deviceReceived := h.deviceWindow, h.deviceReceived;
      sendable := CalcSendable(h.sent, h.deviceWindow, h.deviceReceived);
      dropped := false;
    }

    method UpdateStates(p: Packet)
      modifies this
      ensures State() == AfterPacket(old(State()), p)
    {
      var len := PayloadLen(p.payload);
      match p.tcp {
        case Some(h) =>
          received := Add32(h.sequenceNumber, len);
          deviceReceived := h.acknowledgmentNumber;
          deviceWindow := h.windowSize;
        case None =>
      }
    }

    method UpdateSendable()
      modifies this
      ensures State() == Refreshed(old(State()))
    {
      sendable := CalcSendable(sent, deviceWindow, deviceReceived);
    }

    method AddSent(n: nat)
      modifies this
      ensures State() == AfterSending(old(State()), n)
    {
      sent := Add32(sent, n);
    }

    method SetDropped()
      modifies this
      ensures State() == old(State()).(dropped := true)
    {
      dropped := true;
    }
  }

  // ----- handshake -----

  datatype Handshake = Handshake(sent: u32, received: u32, deviceWindow: u16, deviceReceived: u32)

  datatype HandshakeError = ChannelClosed | NoTcpHeader | ConnectionRefused

  datatype HandshakeResult = Connected(handshake: Handshake) | Refused(error: HandshakeError)

  /** The first packet of every connection. */
  function SynPacket(source: u16, destination: u16): Packet {
    BuildTcp(BuildTcpHeader(source, destination, 0, 0, SYN), [])
  }

  /** `TcpHandshake::perform`. The sends and the receive wait, so each is taken at the
      moment it completes: `syn` and `ack` say whether the writer channel was still open
      then, `reply` is what the receive yielded (nothing once the route is gone). The
      packets put on the writer channel are returned in order. */
  method Perform(source: u16, destination: u16, synOpen: bool, reply: Option<Packet>, ackOpen: bool)
    returns (r: HandshakeResult, out: seq<Packet>)
    ensures r.Connected? <==>
              synOpen && ackOpen && reply.Some? && reply.value.tcp.Some?
              && reply.value.tcp.value.syn && reply.value.tcp.value.ack
    ensures r.Connected? ==>
              && var h := reply.value.tcp.value;
              && r.handshake == Handshake(h.acknowledgmentNumber, 1, h.windowSize, h.acknowledgmentNumber)
              && out == [SynPacket(source, destination), BuildFlag(InitialConn(source, destination, r.handshake), ACK)]
    ensures !r.Connected? ==> out == if synOpen then [SynPacket(source, destination)] else []
    ensures out != [] ==> out[0] == SynPacket(source, destination)
    ensures r.Refused? ==>
              && (r.error.NoTcpHeader? <==> synOpen && reply.Some? && reply.value.tcp.None?)
              && (r.error.ConnectionRefused? <==>
                    synOpen && reply.Some? && reply.value.tcp.Some?
                    && !(reply.value.tcp.value.syn && reply.value.tcp.value.ack))
  {
    out := [];
    var sentBytes: u32, receivedBytes: u32 := 0, 0;
    if !synOpen {
      return Refused(ChannelClosed), out;
    }
    out := out + [BuildTcp(BuildTcpHeader(source, destination, sentBytes, receivedBytes, SYN), [])];
    if reply.None? {
      return Refused(ChannelClosed), out;
    }
    if reply.value.tcp.None? {
      return Refused(NoTcpHeader), out;
    }
    var h := reply.value.tcp.value;
    if !(h.syn && h.ack) {
      return Refused(ConnectionRefused), out;
    }
    sentBytes := sentBytes + h.acknowledgmentNumber;
    receivedBytes := receivedBytes + 1;
    if !ackOpen {
      return Refused(ChannelClosed), out;
    }
    out := out + [BuildTcp(BuildTcpHeader(source, destination, sentBytes, receivedBytes, ACK), [])];
    r := Connected(Handshake(sentBytes, receivedBytes, h.windowSize, h.acknowledgmentNumber));
  }

  /** A connection starts with its ports, not dropped, nothing in flight and the device's whole window to
      fill, one packet at a time. */
  lemma NewConnectionHasItsWindow(source: u16, destination: u16, h: Handshake)
    requires h.sent == h.deviceReceived
    ensures var c := InitialConn(source, destination, h);
            && c.sourcePort == source && c.destinationPort == destination && !c.dropped
            && Sub32(c.sent, c.deviceReceived) == 0 && c.sent == h.sent && c.received == h.received
            && c.deviceWindow == h.deviceWindow
            && c.sendable == Min(h.deviceWindow * 0x100, MAX_PACKET_PAYLOAD_SIZE)
  {
    SendableIsTheRoomLeft(h.sent, h.sent, h.deviceWindow);
  }

  /** Section 3.5 of RFC 9293: the segment completing an active open carries SEG.SEQ = ISS + 1
      and SEG.ACK = IRS + 1. */
  ghost predicate CompletesHandshake(iss: u32, synAck: TcpHeader, ack: TcpHeader) {
    && ack.sequenceNumber == Add32(iss, 1)
    && ack.acknowledgmentNumber == Add32(synAck.sequenceNumber, 1)
  }

  /** The final ACK is the one the standard asks for exactly when the device starts its own
      numbering at 0 and acknowledged our SYN alone; any other initial sequence number of the
      device is acknowledged wrongly, because 1 is sent whatever the SYN-ACK's number was. */
  lemma HandshakeConformsExactly(source: u16, destination: u16, synAck: TcpHeader)
    ensures var c := InitialConn(source, destination,
                             Handshake(synAck.acknowledgmentNumber, 1, synAck.windowSize, synAck.acknowledgmentNumber));
            CompletesHandshake(0, synAck, BuildFlag(c, ACK).tcp.value)
            <==> synAck.sequenceNumber == 0 && synAck.acknowledgmentNumber == 1
  {
    if synAck.sequenceNumber + 1 == 0x1_0000_0000 {
      assert Add32(synAck.sequenceNumber, 1) == 0;
    } else {
      assert Add32(synAck.sequenceNumber, 1) == synAck.sequenceNumber + 1;
    }
  }
}
