// Frames on the USB pipe: encoding a packet to bytes, reading one back from a byte stream,
// and the round trip between the two.

module Codec {
  import opened Common
  import opened Packets

  // ----- numbers -----

  function FromBE16(b: seq<u8>): u16
    requires |b| == 2
  {
    var hi: int, lo: int := b[0], b[1];
    hi * 0x100 + lo
  }

  function FromBE32(b: seq<u8>): u32
    requires |b| == 4
  {
    var hi: int, lo: int := FromBE16(b[..2]), FromBE16(b[2..]);
    hi * 0x1_0000 + lo
  }

  lemma BE16RoundTrip(x: u16)
    ensures FromBE16(BE16(x)) == x
  {
  }

  lemma BE32RoundTrip(x: u32)
    ensures FromBE32(BE32(x)) == x
  {
    assert BE32(x)[..2] == BE16(x / 0x1_0000) && BE32(x)[2..] == BE16(x % 0x1_0000);
    BE16RoundTrip(x / 0x1_0000);
    BE16RoundTrip(x % 0x1_0000);
  }

  // ----- encoding -----

  function ProtocolNumber(p: Protocol): u32 {
    match p
    case ProtoVersion => 0
    case ProtoControl => 1
    case ProtoSetup => 2
    case ProtoTcp => 6
  }

  function ProtocolOf(n: u32): Option<Protocol> {
    if n == 0 then Some(ProtoVersion)
    else if n == 1 then Some(ProtoControl)
    else if n == 2 then Some(ProtoSetup)
    else if n == 6 then Some(ProtoTcp)
    else None
  }

  function HeaderSize(h: Header): nat {
    if h.V1? then V1_SIZE else V2_SIZE
  }

  function EncodeHeader(h: Header): (b: seq<u8>)
    ensures |b| == HeaderSize(h)
  {
    match h
    case V1(protocol, length) => BE32(ProtocolNumber(protocol)) + BE32(length)
    case V2(protocol, length, magic, sendSeq, recvSeq) =>
      BE32(ProtocolNumber(protocol)) + BE32(length) + BE32(magic) + BE16(sendSeq) + BE16(recvSeq)
  }

  function Bit(b: bool, weight: nat): nat {
    if b then weight else 0
  }

  /** Data offset (5 words) and the NS bit. */
  function OffsetByte(h: TcpHeader): u8 {
    0x50 + Bit(h.ns, 1)
  }

  function FlagByte(h: TcpHeader): u8 {
    Bit(h.cwr, 128) + Bit(h.ece, 64) + Bit(h.urg, 32) + Bit(h.ack, 16)
    + Bit(h.psh, 8) + Bit(h.rst, 4) + Bit(h.syn, 2) + Bit(h.fin, 1)
  }

  /** Section 3.1 of RFC 9293. */
  function EncodeTcp(h: TcpHeader): (b: seq<u8>)
    ensures |b| == TCP_MIN_LEN
  {
    BE16(h.sourcePort) + BE16(h.destinationPort)
    + BE32(h.sequenceNumber) + BE32(h.acknowledgmentNumber)
    + [OffsetByte(h), FlagByte(h)] + BE16(h.windowSize)
    + BE16(h.checksum) + BE16(h.urgentPointer)
  }

  function Encode(p: Packet): seq<u8> {
    EncodeHeader(p.header)
    + (if p.tcp.Some? then EncodeTcp(p.tcp.value) else [])
    + EncodePayload(p.payload)
  }

  // ----- decoding -----

  datatype ParseError =
    | Io           // the pipe ended inside a frame
    | InvalidData
    | Panics       // a version payload that is not 12 bytes long

  datatype Parsed<+T> = Parsed(value: T, rest: seq<u8>) | ParseFailed(error: ParseError, rest: seq<u8>)

  function DecodeTcp(b: seq<u8>): Option<TcpHeader>
    requires |b| == TCP_MIN_LEN
  {
    if b[12] / 0x10 != 5 then None
    else
      var f := b[13];
      Some(TcpHeader(
        FromBE16(b[0..2]), FromBE16(b[2..4]), FromBE32(b[4..8]), FromBE32(b[8..12]),
        b[12] % 2 == 1,
        f % 2 == 1, f / 2 % 2 == 1, f / 4 % 2 == 1, f / 8 % 2 == 1,
        f / 16 % 2 == 1, f / 32 % 2 == 1, f / 64 % 2 == 1, f / 128 % 2 == 1,
        FromBE16(b[14..16]), FromBE16(b[16..18]), FromBE16(b[18..20])))
  }

  function DecodePayload(data: seq<u8>, protocol: Protocol): Option<Payload> {
    match protocol
    case ProtoVersion =>
      if |data| == VERSION_SIZE
      then Some(Version(FromBE32(data[0..4]), FromBE32(data[4..8]), FromBE32(data[8..12])))
      else None
    case ProtoControl =>
      if |data| == 0 then Some(Error(None, None))
      else if |data| == 1 then Some(Error(Some(data[0]), None))
      else Some(Error(Some(data[0]), Some(data[1..])))
    case _ => Some(Bytes(data))
  }

  /** `UsbDevicePacketHeader::from_reader`. */
  function ParseHeader(s: seq<u8>): Parsed<Header> {
    if |s| < V1_SIZE then ParseFailed(Io, [])
    else
      var length := FromBE32(s[4..8]);
      match ProtocolOf(FromBE32(s[0..4]))
      case None => ParseFailed(InvalidData, s[8..])
      case Some(ProtoVersion) => Parsed(V1(ProtoVersion, length), s[8..])
      case Some(protocol) =>
        if |s| < V2_SIZE then ParseFailed(Io, [])
        else Parsed(V2(protocol, length, FromBE32(s[8..12]), FromBE16(s[12..14]), FromBE16(s[14..16])), s[16..])
  }

  /** The TCP header of a frame, if its protocol says there is one. */
  function ParseTcp(protocol: Protocol, s: seq<u8>): Parsed<Option<TcpHeader>> {
    if protocol != ProtoTcp then Parsed(None, s)
    else if |s| < TCP_MIN_LEN then ParseFailed(Io, [])
    else match DecodeTcp(s[..TCP_MIN_LEN])
      case None => ParseFailed(InvalidData, s[TCP_MIN_LEN..])
      case Some(h) => Parsed(Some(h), s[TCP_MIN_LEN..])
  }

  function TcpLen(tcp: Option<TcpHeader>): nat {
    if tcp.Some? then TCP_MIN_LEN else 0
  }

  /** `UsbDevicePacket::from_reader` on a pipe holding the bytes `s`. */
  function Parse(s: seq<u8>): Parsed<Packet> {
    match ParseHeader(s)
    case ParseFailed(e, rest) => ParseFailed(e, rest)
    case Parsed(header, s1) =>
      match ParseTcp(header.protocol, s1)
      case ParseFailed(e, rest) => ParseFailed(e, rest)
      case Parsed(tcp, s2) =>
        var headers := HeaderSize(header) + TcpLen(tcp);
        if header.length < headers then ParseFailed(InvalidData, s2)
        else
          var n := header.length - headers;
          if |s2| < n then ParseFailed(Io, [])
          else match DecodePayload(s2[..n], header.protocol)
            case None => ParseFailed(Panics, s2[n..])
            case Some(payload) => Parsed(Packet(header, tcp, payload), s2[n..])
  }

  // ----- the pieces round-trip -----

  lemma OffsetByteRoundTrip(h: TcpHeader)
    ensures OffsetByte(h) / 0x10 == 5 && (OffsetByte(h) % 2 == 1) == h.ns
  {
  }

  function Nibble(b3: bool, b2: bool, b1: bool, b0: bool): (n: nat)
    ensures n < 16
  {
    Bit(b3, 8) + Bit(b2, 4) + Bit(b1, 2) + Bit(b0, 1)
  }

  lemma NibbleBits(b3: bool, b2: bool, b1: bool, b0: bool)
    ensures var n := Nibble(b3, b2, b1, b0);
            && (n % 2 == 1) == b0 && (n / 2 % 2 == 1) == b1
            && (n / 4 % 2 == 1) == b2 && (n / 8 % 2 == 1) == b3
  {
  }

  lemma Halves(hi: nat, lo: nat)
    ensures (16 * hi + lo) / 2 == 2 * (4 * hi) + lo / 2
  {
  }

  lemma Quarters(hi: nat, lo: nat)
    ensures (16 * hi + lo) / 4 == 2 * (2 * hi) + lo / 4
  {
  }

  lemma Eighths(hi: nat, lo: nat)
    ensures (16 * hi + lo) / 8 == 2 * hi + lo / 8
  {
  }

  lemma EvenPlus(k: nat, x: nat)
    ensures (2 * k + x) % 2 == x % 2
  {
  }

  lemma LowNibble(hi: nat, lo: nat)
    ensures var f := 16 * hi + lo;
            && f % 2 == lo % 2 && f / 2 % 2 == lo / 2 % 2
            && f / 4 % 2 == lo / 4 % 2 && f / 8 % 2 == lo / 8 % 2
  {
    EvenPlus(8 * hi, lo);
    Halves(hi, lo);
    EvenPlus(4 * hi, lo / 2);
    Quarters(hi, lo);
    EvenPlus(2 * hi, lo / 4);
    Eighths(hi, lo);
    EvenPlus(hi, lo / 8);
  }

  lemma HighNibble(hi: nat, lo: nat)
    requires hi < 16 && lo < 16
    ensures var f := 16 * hi + lo;
            f / 16 == hi && f / 32 == hi / 2 && f / 64 == hi / 4 && f / 128 == hi / 8
  {
  }

  lemma FlagByteRoundTrip(h: TcpHeader)
    ensures var f := FlagByte(h);
            && (f % 2 == 1) == h.fin && (f / 2 % 2 == 1) == h.syn
            && (f / 4 % 2 == 1) == h.rst && (f / 8 % 2 == 1) == h.psh
            && (f / 16 % 2 == 1) == h.ack && (f / 32 % 2 == 1) == h.urg
            && (f / 64 % 2 == 1) == h.ece && (f / 128 % 2 == 1) == h.cwr
  {
    var hi, lo := Nibble(h.cwr, h.ece, h.urg, h.ack), Nibble(h.psh, h.rst, h.syn, h.fin);
    assert FlagByte(h) == 16 * hi + lo;
    NibbleBits(h.cwr, h.ece, h.urg, h.ack);
    NibbleBits(h.psh, h.rst, h.syn, h.fin);
    LowNibble(hi, lo);
    HighNibble(hi, lo);
  }

  lemma TcpRoundTrip(h: TcpHeader)
    ensures DecodeTcp(EncodeTcp(h)) == Some(h)
  {
    var b := EncodeTcp(h);
    assert b[0..2] == BE16(h.sourcePort) && b[2..4] == BE16(h.destinationPort);
    assert b[4..8] == BE32(h.sequenceNumber) && b[8..12] == BE32(h.acknowledgmentNumber);
    assert b[12] == OffsetByte(h) && b[13] == FlagByte(h);
    assert b[14..16] == BE16(h.windowSize) && b[16..18] == BE16(h.checksum);
    assert b[18] == BE16(h.urgentPointer)[0] && b[19] == BE16(h.urgentPointer)[1];
    assert b[18..20] == BE16(h.urgentPointer);
    BE16RoundTrip(h.sourcePort);
    BE16RoundTrip(h.destinationPort);
    BE32RoundTrip(h.sequenceNumber);
    BE32RoundTrip(h.acknowledgmentNumber);
    BE16RoundTrip(h.windowSize);
    BE16RoundTrip(h.checksum);
    BE16RoundTrip(h.urgentPointer);
    OffsetByteRoundTrip(h);
    FlagByteRoundTrip(h);
  }

  /** The byte positions of section 3.1 of RFC 9293, most significant byte first: ports at 0 and
      2, sequence number at 4, acknowledgment number at 8, a data offset of 5 words, and the
      ACK, RST and SYN bits at 0x10, 0x04 and 0x02 of byte 13. */
  lemma TcpLayout(source: u16, destination: u16, sequence: u32, acknowledgment: u32, flags: TcpFlags)
    ensures var b := EncodeTcp(BuildTcpHeader(source, destination, sequence, acknowledgment, flags));
            && 0x100 * (b[0] as int) + b[1] == source
            && 0x100 * (b[2] as int) + b[3] == destination
            && 0x100_0000 * (b[4] as int) + 0x1_0000 * (b[5] as int) + 0x100 * (b[6] as int) + b[7] == sequence
            && 0x100_0000 * (b[8] as int) + 0x1_0000 * (b[9] as int) + 0x100 * (b[10] as int) + b[11] == acknowledgment
            && b[12] == 0x50
            && b[13] == (if flags.ack then 0x10 else 0) + (if flags.rst then 0x04 else 0)
                        + (if flags.syn then 0x02 else 0)
            && 0x100 * (b[14] as int) + b[15] == 128 * 1024 / 0x100
            && b[16..] == [0, 0, 0, 0]
  {
    var b := EncodeTcp(BuildTcpHeader(source, destination, sequence, acknowledgment, flags));
    assert b[4..8] == BE32(sequence) && b[8..12] == BE32(acknowledgment);
    BE32Digits(sequence);
    BE32Digits(acknowledgment);
  }

  lemma BE32Digits(x: u32)
    ensures var b := BE32(x);
            0x100_0000 * (b[0] as int) + 0x1_0000 * (b[1] as int) + 0x100 * (b[2] as int) + b[3] == x
  {
    var hi, lo := x / 0x1_0000, x % 0x1_0000;
    assert BE32(x) == [hi / 0x100, hi % 0x100, lo / 0x100, lo % 0x100];
  }

  /** The mux header, most significant byte first: the protocol's number, the length and, in V2, magic
      and the two packet numbers. */
  lemma HeaderLayout(h: Header)
    ensures var b := EncodeHeader(h);
            && |b| == (if h.V1? then 8 else 16)
            && b[0] == b[1] == b[2] == 0
            && (h.protocol == ProtoVersion ==> b[3] == 0) && (h.protocol == ProtoControl ==> b[3] == 1)
            && (h.protocol == ProtoSetup ==> b[3] == 2) && (h.protocol == ProtoTcp ==> b[3] == 6)
            && 0x100_0000 * (b[4] as int) + 0x1_0000 * (b[5] as int) + 0x100 * (b[6] as int) + b[7] == h.length
            && (h.V2? ==>
                  && 0x100_0000 * (b[8] as int) + 0x1_0000 * (b[9] as int) + 0x100 * (b[10] as int) + b[11] == h.magic
                  && 0x100 * (b[12] as int) + b[13] == h.sendSeq
                  && 0x100 * (b[14] as int) + b[15] == h.recvSeq)
  {
    BE32Digits(h.length);
    if h.V2? { BE32Digits(h.magic); }
  }

  /** A builder's TCP packet, whatever its numbers: a V2 TCP header with the magic 0xfeedface and the
      length of the whole frame, the TCP header, the data. */
  lemma TcpFrameLayout(tcp: TcpHeader, data: seq<u8>)
    requires 36 + |data| < 0x1_0000_0000
    ensures var b := Encode(BuildTcp(tcp, data));
            && |b| == 36 + |data|
            && b[..4] == [0, 0, 0, 6]
            && 0x100_0000 * (b[4] as int) + 0x1_0000 * (b[5] as int) + 0x100 * (b[6] as int) + b[7] == 36 + |data|
            && b[8..12] == [0xfe, 0xed, 0xfa, 0xce]
            && b[16..36] == EncodeTcp(tcp)
            && b[36..] == data
  {
    var h := BuildTcp(tcp, data).header;
    HeaderLayout(h);
    var b := Encode(BuildTcp(tcp, data));
    assert b[..16] == EncodeHeader(h);
    assert BE32(MAGIC) == [0xfe, 0xed, 0xfa, 0xce];
  }

  lemma SmallNumber(x: u8)
    ensures BE32(x) == [0, 0, 0, x]
  {
  }

  lemma VersionBytes()
    ensures Encode(BuildVersion(2, 0)) == [0, 0, 0, 0, 0, 0, 0, 20, 0, 0, 0, 2, 0, 0, 0, 0, 0, 0, 0, 0]
  {
    SmallNumber(0);
    SmallNumber(2);
    SmallNumber(20);
    var p := BuildVersion(2, 0);
    assert EncodeHeader(p.header) == [0, 0, 0, 0, 0, 0, 0, 20];
    assert EncodePayload(p.payload) == [0, 0, 0, 2, 0, 0, 0, 0, 0, 0, 0, 0];
  }

  lemma SetupBytes()
    ensures Encode(BuildSetup([7])) == [0, 0, 0, 2, 0, 0, 0, 17, 0xfe, 0xed, 0xfa, 0xce, 0, 0, 0xff, 0xff, 7]
  {
    var h := BuildSetup([7]).header;
    SetupHeaderBytes(h);
    assert Encode(BuildSetup([7])) == EncodeHeader(h) + [7];
  }

  lemma SetupHeaderBytes(h: Header)
    requires h == V2(ProtoSetup, 17, MAGIC, 0, 0xffff)
    ensures EncodeHeader(h) == [0, 0, 0, 2, 0, 0, 0, 17, 0xfe, 0xed, 0xfa, 0xce, 0, 0, 0xff, 0xff]
  {
    SmallNumber(2);
    SmallNumber(17);
    MagicBytes();
    assert BE16(0) == [0, 0] && BE16(0xffff) == [0xff, 0xff];
  }

  lemma MagicBytes()
    ensures BE32(MAGIC) == [0xfe, 0xed, 0xfa, 0xce]
  {
  }

  /** The start-up packets byte for byte: version 2.0, and a setup packet holding one byte, 7. */
  lemma StartUpBytes()
    ensures Encode(BuildVersion(2, 0)) == [0, 0, 0, 0, 0, 0, 0, 20, 0, 0, 0, 2, 0, 0, 0, 0, 0, 0, 0, 0]
    ensures Encode(BuildSetup([7])) == [0, 0, 0, 2, 0, 0, 0, 17, 0xfe, 0xed, 0xfa, 0xce, 0, 0, 0xff, 0xff, 7]
  {
    VersionBytes();
    SetupBytes();
  }

  /** A header stands for its protocol's version: only version frames use the short form. */
  predicate HeaderOk(h: Header) {
    h.V1? <==> h.protocol == ProtoVersion
  }

  lemma HeaderRoundTrip(h: Header, rest: seq<u8>)
    requires HeaderOk(h)
    ensures ParseHeader(EncodeHeader(h) + rest) == Parsed(h, rest)
  {
    var s := EncodeHeader(h) + rest;
    BE32RoundTrip(ProtocolNumber(h.protocol));
    BE32RoundTrip(h.length);
    HeaderSlices(h, rest);
    if h.V2? {
      BE32RoundTrip(h.magic);
      BE16RoundTrip(h.sendSeq);
      BE16RoundTrip(h.recvSeq);
    }
  }

  lemma HeaderSlices(h: Header, rest: seq<u8>)
    ensures var s := EncodeHeader(h) + rest;
            && s[0..4] == BE32(ProtocolNumber(h.protocol)) && s[4..8] == BE32(h.length)
            && s[HeaderSize(h)..] == rest
            && (h.V2? ==> s[8..12] == BE32(h.magic) && s[12..14] == BE16(h.sendSeq) && s[14..16] == BE16(h.recvSeq))
  {
  }

  /** Payloads that are what their protocol's decoder would produce. */
  predicate PayloadOk(p: Payload, protocol: Protocol) {
    match protocol
    case ProtoVersion => p.Version?
    case ProtoControl => p.Error? && (p.message.Some? ==> p.code.Some? && p.message.value != [])
    case _ => p.Bytes?
  }

  lemma ThreeWords(x: seq<u8>, y: seq<u8>, z: seq<u8>)
    requires |x| == |y| == |z| == 4
    ensures var b := x + y + z; b[0..4] == x && b[4..8] == y && b[8..12] == z
  {
  }

  lemma PayloadRoundTrip(p: Payload, protocol: Protocol)
    requires PayloadOk(p, protocol)
    ensures DecodePayload(EncodePayload(p), protocol) == Some(p)
  {
    var b := EncodePayload(p);
    match p
    case Version(major, minor, padding) =>
      BE32RoundTrip(major);
      BE32RoundTrip(minor);
      BE32RoundTrip(padding);
      ThreeWords(BE32(major), BE32(minor), BE32(padding));
    case Error(Some(c), Some(m)) => assert b[1..] == m;
    case _ =>
  }

  // ----- frames -----

  predicate TcpOk(p: Packet) {
    p.tcp.Some? <==> p.header.protocol == ProtoTcp
  }

  function FrameLen(p: Packet): nat {
    HeaderSize(p.header) + TcpLen(p.tcp) + PayloadLen(p.payload)
  }

  /** Consistent parts, apart from the length field. */
  predicate ShapeOk(p: Packet) {
    HeaderOk(p.header) && TcpOk(p) && PayloadOk(p.payload, p.header.protocol)
  }

  predicate WellFormed(p: Packet) {
    ShapeOk(p) && p.header.length == FrameLen(p)
  }

  /** Where `Parse` stands after the headers of an encoded packet. */
  lemma HeadersRoundTrip(p: Packet, rest: seq<u8>)
    requires ShapeOk(p)
    ensures var body := EncodePayload(p.payload) + rest;
            var tcp := if p.tcp.Some? then EncodeTcp(p.tcp.value) else [];
            && ParseHeader(Encode(p) + rest) == Parsed(p.header, tcp + body)
            && ParseTcp(p.header.protocol, tcp + body) == Parsed(p.tcp, body)
  {
    var body := EncodePayload(p.payload) + rest;
    var tcp := if p.tcp.Some? then EncodeTcp(p.tcp.value) else [];
    assert Encode(p) + rest == EncodeHeader(p.header) + (tcp + body);
    HeaderRoundTrip(p.header, tcp + body);
    if p.tcp.Some? {
      TcpRoundTrip(p.tcp.value);
      assert (tcp + body)[..TCP_MIN_LEN] == tcp && (tcp + body)[TCP_MIN_LEN..] == body;
    } else {
      assert tcp + body == body;
    }
  }

  lemma RoundTrip(p: Packet, rest: seq<u8>)
    requires WellFormed(p)
    ensures Parse(Encode(p) + rest) == Parsed(p, rest)
  {
    HeadersRoundTrip(p, rest);
    PayloadRoundTrip(p.payload, p.header.protocol);
    var body, n := EncodePayload(p.payload) + rest, PayloadLen(p.payload);
    assert body[..n] == EncodePayload(p.payload) && body[n..] == rest;
  }

  /** A frame that parses takes up exactly as many bytes as its length field says. */
  lemma ParseConsumes(s: seq<u8>)
    requires Parse(s).Parsed?
    ensures |s| == Parse(s).value.header.length + |Parse(s).rest|
  {
  }

  lemma BuilderMadeShape(p: Packet)
    requires BuilderMade(p)
    ensures ShapeOk(p) && p.header.length == FrameLen(p) % 0x1_0000_0000
  {
  }

  /** A packet made by the builder survives the pipe, with whatever follows it, exactly when
      its total length fits the 32-bit length field; a longer one comes back different or not
      at all, because the field keeps only the low 32 bits. */
  lemma BuilderMadeRoundTripsExactly(p: Packet, rest: seq<u8>)
    requires BuilderMade(p)
    ensures Parse(Encode(p) + rest) == Parsed(p, rest) <==> FrameLen(p) < 0x1_0000_0000
  {
    BuilderMadeShape(p);
    if FrameLen(p) < 0x1_0000_0000 {
      RoundTrip(p, rest);
    } else {
      HeadersRoundTrip(p, rest);
      TruncatedIsDifferent(p, rest);
    }
  }

  lemma TruncatedIsDifferent(p: Packet, rest: seq<u8>)
    requires ShapeOk(p) && p.header.length < FrameLen(p)
    requires var body := EncodePayload(p.payload) + rest;
             var tcp := if p.tcp.Some? then EncodeTcp(p.tcp.value) else [];
             && ParseHeader(Encode(p) + rest) == Parsed(p.header, tcp + body)
             && ParseTcp(p.header.protocol, tcp + body) == Parsed(p.tcp, body)
    ensures Parse(Encode(p) + rest) != Parsed(p, rest)
  {
    var body := EncodePayload(p.payload) + rest;
    var headers := HeaderSize(p.header) + TcpLen(p.tcp);
    if p.header.length >= headers {
      var n := p.header.length - headers;
      assert n < PayloadLen(p.payload);
      assert |body[n..]| > |rest|;
    }
  }

  // ----- parsing, exactly -----

  lemma BE16Inverse(b: seq<u8>)
    requires |b| == 2
    ensures BE16(FromBE16(b)) == b
  {
  }

  lemma BE32Inverse(b: seq<u8>)
    requires |b| == 4
    ensures BE32(FromBE32(b)) == b
  {
    BE16Inverse(b[..2]);
    BE16Inverse(b[2..]);
    assert b == b[..2] + b[2..];
  }

  lemma HeaderInverse(s: seq<u8>)
    requires ParseHeader(s).Parsed?
    ensures HeaderOk(ParseHeader(s).value) && s == EncodeHeader(ParseHeader(s).value) + ParseHeader(s).rest
  {
    BE32Inverse(s[0..4]);
    BE32Inverse(s[4..8]);
    assert s[0..4] + s[4..8] + s[8..] == s;
    if ParseHeader(s).value.V2? {
      BE32Inverse(s[8..12]);
      BE16Inverse(s[12..14]);
      BE16Inverse(s[14..16]);
      assert s[0..4] + s[4..8] + s[8..12] + s[12..14] + s[14..16] + s[16..] == s;
    }
  }

  lemma BitsOf(f: u8)
    ensures f == 128 * (f / 128) + 64 * (f / 64 % 2) + 32 * (f / 32 % 2) + 16 * (f / 16 % 2)
                 + 8 * (f / 8 % 2) + 4 * (f / 4 % 2) + 2 * (f / 2 % 2) + f % 2
    ensures f / 128 % 2 == f / 128
  {
    assert f / 4 == f / 2 / 2 && f / 8 == f / 4 / 2 && f / 16 == f / 8 / 2;
    assert f / 32 == f / 16 / 2 && f / 64 == f / 32 / 2 && f / 128 == f / 64 / 2;
  }

  lemma FlagByteInverse(h: TcpHeader, f: u8)
    requires h.fin == (f % 2 == 1) && h.syn == (f / 2 % 2 == 1) && h.rst == (f / 4 % 2 == 1)
    requires h.psh == (f / 8 % 2 == 1) && h.ack == (f / 16 % 2 == 1) && h.urg == (f / 32 % 2 == 1)
    requires h.ece == (f / 64 % 2 == 1) && h.cwr == (f / 128 % 2 == 1)
    ensures FlagByte(h) == f
  {
    BitsOf(f);
    FlagByteIs(h, f, f / 128 % 2, f / 64 % 2, f / 32 % 2, f / 16 % 2, f / 8 % 2, f / 4 % 2, f / 2 % 2, f % 2);
  }

  lemma FlagByteIs(
    h: TcpHeader, f: u8, cwr: nat, ece: nat, urg: nat, ack: nat, psh: nat, rst: nat, syn: nat, fin: nat)
    requires f == 128 * cwr + 64 * ece + 32 * urg + 16 * ack + 8 * psh + 4 * rst + 2 * syn + fin
    requires cwr < 2 && ece < 2 && urg < 2 && ack < 2 && psh < 2 && rst < 2 && syn < 2 && fin < 2
    requires h.cwr == (cwr == 1) && h.ece == (ece == 1) && h.urg == (urg == 1) && h.ack == (ack == 1)
    requires h.psh == (psh == 1) && h.rst == (rst == 1) && h.syn == (syn == 1) && h.fin == (fin == 1)
    ensures FlagByte(h) == f
  {
    HighBits(h, cwr, ece, urg, ack);
    assert Bit(h.psh, 8) + Bit(h.rst, 4) + Bit(h.syn, 2) + Bit(h.fin, 1) == 8 * psh + 4 * rst + 2 * syn + fin;
  }

  lemma HighBits(h: TcpHeader, cwr: nat, ece: nat, urg: nat, ack: nat)
    requires cwr < 2 && ece < 2 && urg < 2 && ack < 2
    requires h.cwr == (cwr == 1) && h.ece == (ece == 1) && h.urg == (urg == 1) && h.ack == (ack == 1)
    ensures Bit(h.cwr, 128) + Bit(h.ece, 64) + Bit(h.urg, 32) + Bit(h.ack, 16)
         == 128 * cwr + 64 * ece + 32 * urg + 16 * ack
  {
  }

  /** The three reserved bits of a TCP header, which the decoder ignores. */
  predicate ReservedClear(offsetByte: u8) {
    offsetByte % 0x10 < 2
  }

  lemma TcpInverse(b: seq<u8>)
    requires |b| == TCP_MIN_LEN && DecodeTcp(b).Some? && ReservedClear(b[12])
    ensures EncodeTcp(DecodeTcp(b).value) == b
  {
    var h := DecodeTcp(b).value;
    BE16Inverse(b[0..2]);
    BE16Inverse(b[2..4]);
    BE32Inverse(b[4..8]);
    BE32Inverse(b[8..12]);
    BE16Inverse(b[14..16]);
    BE16Inverse(b[16..18]);
    BE16Inverse(b[18..20]);
    FlagByteInverse(h, b[13]);
    assert OffsetByte(h) == b[12];
    TwentyBytes(b);
  }

  lemma TwentyBytes(b: seq<u8>)
    requires |b| == 20
    ensures b[0..2] + b[2..4] + b[4..8] + b[8..12] + [b[12], b[13]] + b[14..16] + b[16..18] + b[18..20] == b
  {
  }

  lemma PayloadInverse(data: seq<u8>, protocol: Protocol)
    requires DecodePayload(data, protocol).Some?
    ensures var p := DecodePayload(data, protocol).value; PayloadOk(p, protocol) && EncodePayload(p) == data
  {
    match protocol
    case ProtoVersion =>
      BE32Inverse(data[0..4]);
      BE32Inverse(data[4..8]);
      BE32Inverse(data[8..12]);
      assert data[0..4] + data[4..8] + data[8..12] == data;
    case ProtoControl =>
      if |data| > 1 { assert [data[0]] + data[1..] == data; }
    case _ =>
  }

  /** The reserved bits of the frame at the front are clear, if it has a TCP header. */
  predicate FrameReservedClear(s: seq<u8>) {
    |s| >= 36 && FromBE32(s[0..4]) == 6 ==> ReservedClear(s[28])
  }

  lemma TcpPartInverse(protocol: Protocol, s1: seq<u8>)
    requires ParseTcp(protocol, s1).Parsed?
    requires protocol == ProtoTcp ==> ReservedClear(s1[12])
    ensures var (tcp, rest) := (ParseTcp(protocol, s1).value, ParseTcp(protocol, s1).rest);
            && (tcp.Some? <==> protocol == ProtoTcp)
            && s1 == (if tcp.Some? then EncodeTcp(tcp.value) else []) + rest
  {
    if protocol == ProtoTcp {
      TcpInverse(s1[..TCP_MIN_LEN]);
      assert s1 == s1[..TCP_MIN_LEN] + s1[TCP_MIN_LEN..];
    } else {
      assert [] + s1 == s1;
    }
  }

  lemma PayloadPartInverse(header: Header, tcp: Option<TcpHeader>, s2: seq<u8>, n: nat)
    requires n <= |s2| && n == header.length - HeaderSize(header) - TcpLen(tcp)
    requires DecodePayload(s2[..n], header.protocol).Some?
    ensures var payload := DecodePayload(s2[..n], header.protocol).value;
            && PayloadOk(payload, header.protocol) && PayloadLen(payload) == n
            && s2 == EncodePayload(payload) + s2[n..]
  {
    PayloadInverse(s2[..n], header.protocol);
    assert s2 == s2[..n] + s2[n..];
  }

  lemma TcpNumber(s: seq<u8>)
    requires ParseHeader(s).Parsed? && ParseHeader(s).value.protocol == ProtoTcp
    ensures FromBE32(s[0..4]) == 6 && ParseHeader(s).rest == s[16..]
  {
  }

  /** A successful parse, part by part. */
  lemma ParseParts(s: seq<u8>)
    requires Parse(s).Parsed?
    ensures var h := ParseHeader(s);
            && h.Parsed?
            && var t := ParseTcp(h.value.protocol, h.rest);
            && t.Parsed?
            && var n := h.value.length - HeaderSize(h.value) - TcpLen(t.value);
            && 0 <= n <= |t.rest|
            && var payload := DecodePayload(t.rest[..n], h.value.protocol);
            && payload.Some? && Parse(s) == Parsed(Packet(h.value, t.value, payload.value), t.rest[n..])
  {
  }

  lemma ParseInverse(s: seq<u8>)
    requires Parse(s).Parsed? && FrameReservedClear(s)
    ensures WellFormed(Parse(s).value) && s == Encode(Parse(s).value) + Parse(s).rest
  {
    ParseParts(s);
    PartsInverse(s, Parse(s).value, Parse(s).rest, ParseHeader(s).rest,
                 ParseTcp(ParseHeader(s).value.protocol, ParseHeader(s).rest).rest);
  }

  lemma PartsInverse(s: seq<u8>, p: Packet, rest: seq<u8>, s1: seq<u8>, s2: seq<u8>)
    requires FrameReservedClear(s) && ParseHeader(s) == Parsed(p.header, s1)
    requires ParseTcp(p.header.protocol, s1) == Parsed(p.tcp, s2)
    requires var n := p.header.length - HeaderSize(p.header) - TcpLen(p.tcp);
             && 0 <= n <= |s2| && rest == s2[n..]
             && DecodePayload(s2[..n], p.header.protocol) == Some(p.payload)
    ensures WellFormed(p) && s == Encode(p) + rest
  {
    HeaderInverse(s);
    TcpInFrame(s, p, s1);
    TcpPartInverse(p.header.protocol, s1);
    PayloadPartInverse(p.header, p.tcp, s2, p.header.length - HeaderSize(p.header) - TcpLen(p.tcp));
    assert s == Encode(p) + rest by { Reassembled(s, p, s1, s2, rest); }
  }

  lemma TcpInFrame(s: seq<u8>, p: Packet, s1: seq<u8>)
    requires FrameReservedClear(s) && ParseHeader(s) == Parsed(p.header, s1)
    requires ParseTcp(p.header.protocol, s1).Parsed?
    ensures p.header.protocol == ProtoTcp ==> |s1| >= TCP_MIN_LEN && ReservedClear(s1[12])
  {
    if p.header.protocol == ProtoTcp {
      TcpNumber(s);
      assert s1[12] == s[28];
    }
  }

  lemma Reassembled(s: seq<u8>, p: Packet, s1: seq<u8>, s2: seq<u8>, rest: seq<u8>)
    requires s == EncodeHeader(p.header) + s1
    requires s1 == (if p.tcp.Some? then EncodeTcp(p.tcp.value) else []) + s2
    requires s2 == EncodePayload(p.payload) + rest
    ensures s == Encode(p) + rest
  {
  }

  /** Parsing is the inverse of encoding: the bytes at the front of the pipe parse as a packet exactly
      if they are the encoding of that packet and it is well formed. (For bytes whose reserved TCP bits
      are clear; they are dropped.) */
  lemma ParsesExactly(s: seq<u8>, p: Packet, rest: seq<u8>)
    requires FrameReservedClear(s)
    ensures Parse(s) == Parsed(p, rest) <==> WellFormed(p) && s == Encode(p) + rest
  {
    if Parse(s) == Parsed(p, rest) { ParseInverse(s); }
    if WellFormed(p) && s == Encode(p) + rest { RoundTrip(p, rest); }
  }

  /** Why the bytes at the front of the pipe do not parse, if they do not: in this order, fewer than 8
      bytes; an unknown protocol; fewer than 16 bytes of a frame that is not a version frame; fewer than
      36 of a TCP frame, or options in its header; a length that does not cover the headers; fewer bytes
      than the length; a version payload that is not 12 bytes long. */
  function FailureOf(s: seq<u8>): Option<ParseError> {
    if |s| < 8 then Some(Io)
    else
      var number, length := FromBE32(s[0..4]), FromBE32(s[4..8]);
      var headers := if number == 0 then 8 else if number == 6 then 36 else 16;
      if number !in {0, 1, 2, 6} then Some(InvalidData)
      else if |s| < headers then Some(Io)
      else if number == 6 && s[28] / 0x10 != 5 then Some(InvalidData)
      else if length < headers then Some(InvalidData)
      else if |s| < length then Some(Io)
      else if number == 0 && length != 20 then Some(Panics)
      else None
  }

  lemma ParseFailsExactly(s: seq<u8>)
    ensures match FailureOf(s)
            case None => Parse(s).Parsed?
            case Some(e) => Parse(s).ParseFailed? && Parse(s).error == e
  {
    if |s| >= 36 { assert s[16..][..TCP_MIN_LEN][12] == s[28]; }
  }

  // ----- streams of frames -----

  function EncodeAll(ps: seq<Packet>): seq<u8> {
    if ps == [] then [] else Encode(ps[0]) + EncodeAll(ps[1..])
  }

  /** Reading `n` packets one after the other. */
  function ParseMany(s: seq<u8>, n: nat): Parsed<seq<Packet>> {
    if n == 0 then Parsed([], s)
    else match Parse(s)
      case ParseFailed(e, rest) => ParseFailed(e, rest)
      case Parsed(p, rest) =>
        match ParseMany(rest, n - 1)
        case ParseFailed(e, rest') => ParseFailed(e, rest')
        case Parsed(ps, rest') => Parsed([p] + ps, rest')
  }

  lemma ParseManyStep(s: seq<u8>, ps: seq<Packet>, tail: seq<u8>, rest: seq<u8>)
    requires ps != [] && Parse(s) == Parsed(ps[0], tail)
    requires ParseMany(tail, |ps| - 1) == Parsed(ps[1..], rest)
    ensures ParseMany(s, |ps|) == Parsed(ps, rest)
  {
    assert [ps[0]] + ps[1..] == ps;
  }

  /** Frame boundaries are never lost: any number of frames back to back reads back as the
      packets they were made from, leaving exactly the bytes that follow. */
  lemma {:induction false} StreamRoundTrip(ps: seq<Packet>, rest: seq<u8>)
    requires forall p :: p in ps ==> WellFormed(p)
    ensures ParseMany(EncodeAll(ps) + rest, |ps|) == Parsed(ps, rest)
  {
    if ps == [] {
      assert EncodeAll(ps) + rest == rest;
    } else {
      var tail := EncodeAll(ps[1..]) + rest;
      assert EncodeAll(ps) + rest == Encode(ps[0]) + tail;
      RoundTrip(ps[0], tail);
      StreamRoundTrip(ps[1..], rest);
      ParseManyStep(Encode(ps[0]) + tail, ps, tail, rest);
    }
  }
}
