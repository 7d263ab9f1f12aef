// The device-mux packet: mux header, optional TCP header and payload, and the builder
// variants that make every packet this side sends.

module Packets {
  import opened Common

  datatype Protocol = ProtoVersion | ProtoControl | ProtoSetup | ProtoTcp

  datatype Header =
    | V1(protocol: Protocol, length: u32)
    | V2(protocol: Protocol, length: u32, magic: u32, sendSeq: u16, recvSeq: u16)

  /** A TCP header without options (data offset 5). */
  datatype TcpHeader = TcpHeader(
    sourcePort: u16,
    destinationPort: u16,
    sequenceNumber: u32,
    acknowledgmentNumber: u32,
    ns: bool, fin: bool, syn: bool, rst: bool, psh: bool,
    ack: bool, urg: bool, ece: bool, cwr: bool,
    windowSize: u16,
    checksum: u16,
    urgentPointer: u16)

  datatype Payload =
    | Bytes(data: seq<u8>)
    | Version(major: u32, minor: u32, padding: u32)
    | Error(code: Option<u8>, message: Option<seq<u8>>)

  datatype Packet = Packet(header: Header, tcp: Option<TcpHeader>, payload: Payload)

  predicate IsReset(p: Packet) {
    p.tcp.Some? && p.tcp.value.rst
  }

  const V1_SIZE: nat := 8
  const V2_SIZE: nat := 16
  const TCP_MIN_LEN: nat := 20
  const VERSION_SIZE: nat := 12
  const MAGIC: u32 := 0xfeed_face

  const MAX_PACKET_SIZE: nat := 48 * 1024
  const MAX_PACKET_PAYLOAD_SIZE: nat := MAX_PACKET_SIZE - (V2_SIZE + TCP_MIN_LEN)

  /** The receive window this side always advertises: 128 KiB shifted right by 8. */
  const WINDOW_SIZE: u16 := 512

  /** Placeholder sequence numbers; the writer loop overwrites them. */
  const AUTO_SEQ: u16 := 0

  // ----- big-endian images -----

  function BE16(x: u16): (b: seq<u8>)
    ensures |b| == 2
  {
    [x / 0x100, x % 0x100]
  }

  function BE32(x: u32): (b: seq<u8>)
    ensures |b| == 4
  {
    BE16(x / 0x1_0000) + BE16(x % 0x1_0000)
  }

  // ----- payloads -----

  function PayloadLen(p: Payload): nat {
    match p
    case Bytes(data) => |data|
    case Version(_, _, _) => VERSION_SIZE
    case Error(Some(_), Some(m)) => |m| + 1
    case Error(Some(_), None) => 1
    case Error(None, _) => 0
  }

  /** The bytes of a payload; their number is what `len` announced. */
  function EncodePayload(p: Payload): (b: seq<u8>)
    ensures |b| == PayloadLen(p)
  {
    match p
    case Bytes(data) => data
    case Version(major, minor, padding) => BE32(major) + BE32(minor) + BE32(padding)
    case Error(Some(c), Some(m)) => [c] + m
    case Error(Some(c), None) => [c]
    case Error(None, _) => []
  }

  // ----- builder -----

  datatype TcpFlags = TcpFlags(ack: bool, syn: bool, rst: bool)

  const ACK: TcpFlags := TcpFlags(true, false, false)
  const SYN: TcpFlags := TcpFlags(false, true, false)
  const RST: TcpFlags := TcpFlags(false, false, true)

  function BuildTcpHeader(source: u16, destination: u16, sequence: u32, acknowledgment: u32, flags: TcpFlags)
    : TcpHeader
  {
    TcpHeader(source, destination, sequence, acknowledgment,
              false, false, flags.syn, flags.rst, false, flags.ack, false, false, false,
              WINDOW_SIZE, 0, 0)
  }

  /** The `length as u32` of `UsbDevicePacketHeaderV2::new`: a longer total is truncated. */
  function HeaderV2(protocol: Protocol, length: nat, sendSeq: u16, recvSeq: u16): Header {
    V2(protocol, length % 0x1_0000_0000, MAGIC, sendSeq, recvSeq)
  }

  /** The full TCP packet, which also covers the ack variant (an empty payload). */
  function BuildTcp(tcp: TcpHeader, data: seq<u8>): Packet {
    Packet(HeaderV2(ProtoTcp, V2_SIZE + TCP_MIN_LEN + |data|, AUTO_SEQ, AUTO_SEQ), Some(tcp), Bytes(data))
  }

  function BuildVersion(major: u32, minor: u32): Packet {
    Packet(V1(ProtoVersion, V1_SIZE + VERSION_SIZE), None, Version(major, minor, 0))
  }

  function BuildSetup(data: seq<u8>): Packet {
    Packet(HeaderV2(ProtoSetup, V2_SIZE + |data|, 0, 0xffff), None, Bytes(data))
  }

  /** Every packet one of the builder's `build` functions can return. */
  ghost predicate BuilderMade(p: Packet) {
    || (exists tcp: TcpHeader, data: seq<u8> :: p == BuildTcp(tcp, data))
    || (exists major: u32, minor: u32 :: p == BuildVersion(major, minor))
    || (exists data: seq<u8> :: p == BuildSetup(data))
  }
}
