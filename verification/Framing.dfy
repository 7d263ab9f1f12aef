// The two loops at the USB pipe: the writer loop that stamps, frames and writes packets
// through one reused header buffer, and the reader's `from_reader`.

module Framing {
  import opened Common
  import opened Packets
  import opened Codec

  // ----- stamping -----

  /** How a `write_all` ends: everything is written, or an error comes after some of the bytes. */
  datatype WriteOutcome = Wrote | WriteError(accepted: nat)

  /** What the loop meets while it handles one packet: the value of the shared receive counter, and
      how the header write and the payload write end. */
  datatype Turn = Turn(recvSeq: u16, headers: WriteOutcome, payload: WriteOutcome)

  /** The writer loop overwrites the placeholder numbers of a V2 header. */
  function Stamp(p: Packet, sendSeq: u16, recvSeq: u16): Packet {
    if p.header.V2? then p.(header := p.header.(sendSeq := sendSeq, recvSeq := recvSeq)) else p
  }

  function NextSeq(p: Packet, sendSeq: u16): u16 {
    if p.header.V2? then Add16(sendSeq, 1) else sendSeq
  }

  /** What the loop makes of the packets it receives. */
  function StampAll(ps: seq<Packet>, turns: seq<Turn>, sendSeq: u16): (out: seq<Packet>)
    requires |ps| <= |turns|
    ensures |out| == |ps|
  {
    if ps == [] then []
    else [Stamp(ps[0], sendSeq, turns[0].recvSeq)] + StampAll(ps[1..], turns[1..], NextSeq(ps[0], sendSeq))
  }

  function CountV2(ps: seq<Packet>): nat {
    if ps == [] then 0 else (if ps[0].header.V2? then 1 else 0) + CountV2(ps[1..])
  }

  lemma Add16Twice(a: u16, n: nat)
    ensures Add16(Add16(a, 1), n) == Add16(a, n + 1)
  {
    if a == 0xffff {
      assert Add16(a, 1) == 0;
      assert (a + (n + 1)) % 0x1_0000 == n % 0x1_0000 by { assert a + (n + 1) == n + 0x1_0000; }
    } else {
      assert Add16(a, 1) == a + 1;
    }
  }

  /** `got` is `p` with the two packet numbers of a V2 header filled in, the send number in one
      field and the receive count in the other; everything else, and a V1 packet, is unchanged. */
  predicate IsNumbered(got: Packet, p: Packet, sendSeq: u16, recvSeq: u16) {
    && got.tcp == p.tcp && got.payload == p.payload
    && (p.header.V1? ==> got.header == p.header)
    && (p.header.V2? ==>
          && got.header.V2?
          && got.header.sendSeq == sendSeq && got.header.recvSeq == recvSeq
          && got.header.protocol == p.header.protocol
          && got.header.length == p.header.length
          && got.header.magic == p.header.magic)
  }

  /** Packet `i` keeps everything but its two numbers; its send number is the starting one plus
      the number of V2 packets before it, modulo 2^16, however their writes ended, and its receive
      number is what the receive counter showed. */
  lemma {:induction false} StampAllAt(ps: seq<Packet>, turns: seq<Turn>, sendSeq: u16, i: nat)
    requires |ps| <= |turns| && i < |ps|
    ensures IsNumbered(StampAll(ps, turns, sendSeq)[i], ps[i], Add16(sendSeq, CountV2(ps[..i])), turns[i].recvSeq)
  {
    if i == 0 {
      assert ps[..0] == [];
    } else {
      var next := NextSeq(ps[0], sendSeq);
      StampAllAt(ps[1..], turns[1..], next, i - 1);
      assert ps[..i][1..] == ps[1..][..i - 1];
      Add16Twice(sendSeq, CountV2(ps[1..][..i - 1]));
    }
  }

  // ----- the writer loop -----

  /** The bytes of the header write: a V1 header, or a V2 header with the TCP header if any. */
  function WriterHeaders(p: Packet): seq<u8> {
    EncodeHeader(p.header) + (if p.header.V2? && p.tcp.Some? then EncodeTcp(p.tcp.value) else [])
  }

  /** What the split writes put on the pipe for one packet. */
  function WriterFrame(p: Packet): seq<u8> {
    WriterHeaders(p) + EncodePayload(p.payload)
  }

  /** The split writes agree with the simple `encode` on every packet except one: a V1 packet
      carrying a TCP header, whose TCP header the loop leaves out. */
  lemma WriterFrameIsEncode(p: Packet)
    ensures WriterFrame(p) == Encode(p) <==> !(p.header.V1? && p.tcp.Some?)
  {
    if p.header.V1? && p.tcp.Some? {
      assert |Encode(p)| == |WriterFrame(p)| + TCP_MIN_LEN;
    }
  }

  function AcceptedPart(bytes: seq<u8>, w: WriteOutcome): seq<u8> {
    match w
    case Wrote => bytes
    case WriteError(n) => bytes[..Min(n, |bytes|)]
  }

  /** What one turn puts on the pipe: a failed header write skips the payload. */
  function Written(p: Packet, t: Turn): seq<u8> {
    if t.headers.Wrote? then WriterHeaders(p) + AcceptedPart(EncodePayload(p.payload), t.payload)
    else AcceptedPart(WriterHeaders(p), t.headers)
  }

  /** What the turns from index `i` on put on the pipe. */
  function OutputFrom(ps: seq<Packet>, turns: seq<Turn>, i: nat, sendSeq: u16): seq<u8>
    requires i <= |ps| <= |turns|
    decreases |ps| - i
  {
    if i == |ps| then []
    else
      Written(Stamp(ps[i], sendSeq, turns[i].recvSeq), turns[i])
      + OutputFrom(ps, turns, i + 1, NextSeq(ps[i], sendSeq))
  }

  lemma OutputStep(pipe: seq<u8>, ps: seq<Packet>, turns: seq<Turn>, i: nat, sendSeq: u16)
    requires i < |ps| <= |turns|
    ensures pipe + OutputFrom(ps, turns, i, sendSeq)
         == pipe + Written(Stamp(ps[i], sendSeq, turns[i].recvSeq), turns[i])
            + OutputFrom(ps, turns, i + 1, NextSeq(ps[i], sendSeq))
  {
  }

  /** How many of the turns from index `i` on reach `submit_end`. */
  function EndedFrom(turns: seq<Turn>, i: nat): nat
    requires i <= |turns|
    decreases |turns| - i
  {
    if i == |turns| then 0 else (if turns[i].headers.Wrote? then 1 else 0) + EndedFrom(turns, i + 1)
  }

  class DeviceWriter {
    const hbuf: array<u8>
    var sendSeq: u16
    var pipe: seq<u8>     // everything the endpoint accepted
    var ended: nat        // how often `submit_end` was called

    ghost predicate Valid() {
      hbuf.Length == V2_SIZE + TCP_MIN_LEN
    }

    constructor ()
      ensures Valid() && fresh(hbuf) && sendSeq == 1 && pipe == [] && ended == 0
    {
      hbuf := new u8[36](_ => 0);
      sendSeq, pipe, ended := 1, [], 0;
    }

    method CopyToHeader(at: nat, bytes: seq<u8>)
      requires Valid() && at + |bytes| <= hbuf.Length
      modifies hbuf
      ensures hbuf[..] == old(hbuf[..at]) + bytes + old(hbuf[at + |bytes|..])
    {
      forall i | 0 <= i < |bytes| {
        hbuf[at + i] := bytes[i];
      }
    }

    method WriteAll(bytes: seq<u8>, outcome: WriteOutcome) returns (ok: bool)
      modifies this`pipe
      ensures pipe == old(pipe) + AcceptedPart(bytes, outcome) && ok == outcome.Wrote?
    {
      pipe := pipe + AcceptedPart(bytes, outcome);
      ok := outcome.Wrote?;
    }

    /** The header write, through the reused buffer unless the header is a V1 one. */
    method WriteHeaders(p: Packet, outcome: WriteOutcome) returns (ok: bool)
      requires Valid()
      modifies this`pipe, hbuf
      ensures pipe == old(pipe) + AcceptedPart(WriterHeaders(p), outcome) && ok == outcome.Wrote?
    {
      match p.header {
        case V1(_, _) =>
          ok := WriteAll(EncodeHeader(p.header), outcome);
          assert WriterHeaders(p) == EncodeHeader(p.header);
        case V2(_, _, _, _, _) =>
          CopyToHeader(0, EncodeHeader(p.header));
          assert hbuf[..V2_SIZE] == EncodeHeader(p.header);
          if p.tcp.Some? {
            CopyToHeader(V2_SIZE, EncodeTcp(p.tcp.value));
            assert hbuf[..] == WriterHeaders(p);
            ok := WriteAll(hbuf[..], outcome);
          } else {
            assert hbuf[..V2_SIZE] == WriterHeaders(p);
            ok := WriteAll(hbuf[..V2_SIZE], outcome);
          }
      }
    }

    /** One iteration of the loop. Whatever an earlier packet left in the header buffer, the bytes
        are this packet's alone; its number is used up even if it is not written. */
    method WritePacket(packet: Packet, turn: Turn)
      requires Valid()
      modifies this, hbuf
      ensures pipe == old(pipe) + Written(Stamp(packet, old(sendSeq), turn.recvSeq), turn)
      ensures sendSeq == NextSeq(packet, old(sendSeq))
      ensures ended == old(ended) + if turn.headers.Wrote? then 1 else 0
    {
      var p := packet;
      if p.header.V2? {
        p := Stamp(p, sendSeq, turn.recvSeq);
        sendSeq := Add16(sendSeq, 1);
      }
      ghost var before := pipe;
      var ok := WriteHeaders(p, turn.headers);
      if !ok {
        return;
      }
      var _ := WriteAll(EncodePayload(p.payload), turn.payload);
      assert pipe == before + Written(p, turn);
      ended := ended + 1;
    }

    /** The loop over the packets its channel yields until it closes. */
    method WriterLoop(packets: seq<Packet>, turns: seq<Turn>)
      requires Valid() && |packets| == |turns|
      modifies this, hbuf
      ensures pipe == old(pipe) + OutputFrom(packets, turns, 0, old(sendSeq))
      ensures ended == old(ended) + EndedFrom(turns, 0)
    {
      var i := 0;
      ghost var all := pipe + OutputFrom(packets, turns, 0, sendSeq);
      while i < |packets|
        invariant 0 <= i <= |packets|
        invariant pipe + OutputFrom(packets, turns, i, sendSeq) == all
        invariant ended + EndedFrom(turns, i) == old(ended) + EndedFrom(turns, 0)
      {
        OutputStep(pipe, packets, turns, i, sendSeq);
        WritePacket(packets[i], turns[i]);
        i := i + 1;
      }
    }
  }

  // ----- one frame at the device -----

  /** The endpoint took every byte of the frame, whatever it then answered. */
  predicate AllAccepted(p: Packet, t: Turn) {
    if t.headers.Wrote? then t.payload.Wrote? || t.payload.accepted >= PayloadLen(p.payload)
    else t.headers.accepted >= |WriterHeaders(p)| && PayloadLen(p.payload) == 0
  }

  lemma WrittenLength(p: Packet, t: Turn)
    ensures Written(p, t) <= WriterFrame(p) && (Written(p, t) == WriterFrame(p) <==> AllAccepted(p, t))
  {
    assert WriterHeaders(p) + [] == WriterHeaders(p);
  }

  /** A frame arrives, with what follows it intact, exactly if all its bytes were accepted: a torn
      frame takes bytes of the next one. */
  lemma FrameArrivesExactly(p: Packet, t: Turn, rest: seq<u8>)
    requires WellFormed(p)
    ensures Parse(Written(p, t) + rest) == Parsed(p, rest) <==> AllAccepted(p, t)
  {
    WriterFrameIsEncode(p);
    WrittenLength(p, t);
    if AllAccepted(p, t) {
      RoundTrip(p, rest);
    } else if Parse(Written(p, t) + rest) == Parsed(p, rest) {
      ParseConsumes(Written(p, t) + rest);
    }
  }

  // ----- the whole stream -----

  ghost predicate AllWrote(turns: seq<Turn>) {
    forall t :: t in turns ==> t.headers.Wrote? && t.payload.Wrote?
  }

  /** Every packet is written whole or not at all. */
  ghost predicate WholeOrNothing(turns: seq<Turn>) {
    forall t :: t in turns ==> t.payload.Wrote? && (t.headers.Wrote? || t.headers.accepted == 0)
  }

  /** The packets whose turn writes them. */
  function Survivors(ps: seq<Packet>, turns: seq<Turn>): (out: seq<Packet>)
    requires |ps| <= |turns|
    ensures forall p :: p in out ==> p in ps
  {
    if ps == [] then []
    else (if turns[0].headers.Wrote? then [ps[0]] else []) + Survivors(ps[1..], turns[1..])
  }

  /** For packets of the builder the loop's output is the plain encodings of the stamped packets
      that were written, one after the other. */
  lemma {:induction false} OutputIsEncodings(ps: seq<Packet>, turns: seq<Turn>, i: nat, sendSeq: u16)
    requires i <= |ps| <= |turns| && WholeOrNothing(turns)
    requires forall p :: p in ps ==> BuilderMade(p)
    ensures OutputFrom(ps, turns, i, sendSeq)
         == EncodeAll(Survivors(StampAll(ps[i..], turns[i..], sendSeq), turns[i..]))
    decreases |ps| - i
  {
    if i < |ps| {
      var next := NextSeq(ps[i], sendSeq);
      OutputIsEncodings(ps, turns, i + 1, next);
      assert ps[i..][1..] == ps[i + 1..] && turns[i..][1..] == turns[i + 1..];
      assert ps[i] in ps && turns[i] in turns;
      BuilderMadeShape(ps[i]);
      WriterFrameIsEncode(Stamp(ps[i], sendSeq, turns[i].recvSeq));
      var out := StampAll(ps[i..], turns[i..], sendSeq);
      assert out[1..] == StampAll(ps[i + 1..], turns[i + 1..], next);
      SurvivorsStep(out, turns[i..]);
    }
  }

  lemma SurvivorsStep(ps: seq<Packet>, turns: seq<Turn>)
    requires 0 < |ps| <= |turns|
    ensures var rest := Survivors(ps[1..], turns[1..]);
            EncodeAll(Survivors(ps, turns))
            == if turns[0].headers.Wrote? then Encode(ps[0]) + EncodeAll(rest) else EncodeAll(rest)
  {
    var rest := Survivors(ps[1..], turns[1..]);
    if turns[0].headers.Wrote? {
      assert Survivors(ps, turns)[1..] == rest;
    } else {
      assert [] + rest == rest;
    }
  }

  lemma {:induction false} AllSurvive(ps: seq<Packet>, turns: seq<Turn>)
    requires |ps| <= |turns| && AllWrote(turns)
    ensures Survivors(ps, turns) == ps
  {
    if ps != [] {
      assert turns[0] in turns;
      AllSurvive(ps[1..], turns[1..]);
    }
  }

  lemma NumberingKeepsFrames(got: Packet, p: Packet, sendSeq: u16, recvSeq: u16)
    requires BuilderMade(p) && FrameLen(p) < 0x1_0000_0000 && IsNumbered(got, p, sendSeq, recvSeq)
    ensures WellFormed(got)
  {
    BuilderMadeShape(p);
  }

  lemma StampedAreWellFormed(ps: seq<Packet>, turns: seq<Turn>)
    requires |ps| <= |turns|
    requires forall p :: p in ps ==> BuilderMade(p) && FrameLen(p) < 0x1_0000_0000
    ensures forall p :: p in StampAll(ps, turns, 1) ==> WellFormed(p)
  {
    var out := StampAll(ps, turns, 1);
    forall i | 0 <= i < |ps| ensures WellFormed(out[i]) {
      assert ps[i] in ps;
      StampAllAt(ps, turns, 1, i);
      NumberingKeepsFrames(out[i], ps[i], Add16(1, CountV2(ps[..i])), turns[i].recvSeq);
    }
  }

  /** If every write ends whole or without a byte, what the loop writes for packets of the builder
      reads back, by repeated `from_reader`, as exactly the packets that were written, in order and
      under the numbers they were stamped with: a lost packet shows as a gap in the numbers. */
  lemma SurvivorsParseBack(ps: seq<Packet>, turns: seq<Turn>, rest: seq<u8>)
    requires |ps| <= |turns| && WholeOrNothing(turns)
    requires forall p :: p in ps ==> BuilderMade(p) && FrameLen(p) < 0x1_0000_0000
    ensures var got := Survivors(StampAll(ps, turns, 1), turns);
            ParseMany(OutputFrom(ps, turns, 0, 1) + rest, |got|) == Parsed(got, rest)
  {
    StampedAreWellFormed(ps, turns);
    StreamRoundTrip(Survivors(StampAll(ps, turns, 1), turns), rest);
    OutputIsEncodings(ps, turns, 0, 1);
    assert ps[0..] == ps && turns[0..] == turns;
  }

  /** Packet for packet the V2 packets carry their 1-based index among the V2 packets (mod 2^16) as
      the send number and the receive count of their turn as the receive number. */
  ghost predicate AllNumbered(got: seq<Packet>, ps: seq<Packet>, turns: seq<Turn>)
    requires |ps| <= |turns|
  {
    && |got| == |ps|
    && forall i :: 0 <= i < |ps| ==>
         IsNumbered(got[i], ps[i], (1 + CountV2(ps[..i])) % 0x1_0000, turns[i].recvSeq)
  }

  lemma StampedAreNumbered(ps: seq<Packet>, turns: seq<Turn>)
    requires |ps| <= |turns|
    ensures AllNumbered(StampAll(ps, turns, 1), ps, turns)
  {
    forall i | 0 <= i < |ps|
      ensures IsNumbered(StampAll(ps, turns, 1)[i], ps[i], (1 + CountV2(ps[..i])) % 0x1_0000, turns[i].recvSeq)
    {
      StampAllAt(ps, turns, 1, i);
    }
  }

  /** When all writes succeed, everything the loop writes reads back as exactly its packets, with
      those numbers. */
  lemma WriterOutputParsesBack(ps: seq<Packet>, turns: seq<Turn>, rest: seq<u8>)
    requires |ps| <= |turns| && AllWrote(turns)
    requires forall p :: p in ps ==> BuilderMade(p) && FrameLen(p) < 0x1_0000_0000
    ensures exists got: seq<Packet> ::
              AllNumbered(got, ps, turns) && ParseMany(OutputFrom(ps, turns, 0, 1) + rest, |ps|) == Parsed(got, rest)
  {
    var got := StampAll(ps, turns, 1);
    SurvivorsParseBack(ps, turns, rest);
    AllSurvive(got, turns);
    StampedAreNumbered(ps, turns);
  }

  // ----- the reader -----

  lemma SliceOfRest(s: seq<u8>)
    requires |s| >= V2_SIZE
    ensures s[8..][..8] == s[8..16] && s[8..][8..] == s[16..]
    ensures s[8..16][0..4] == s[8..12] && s[8..16][4..6] == s[12..14] && s[8..16][6..8] == s[14..16]
  {
  }

  class PipeReader {
    var rest: seq<u8>     // what the device has sent and nobody has read

    constructor (bytes: seq<u8>)
      ensures rest == bytes
    {
      rest := bytes;
    }

    /** `read_exact`; a pipe that ends early is drained. */
    method ReadExact(n: nat) returns (r: Option<seq<u8>>)
      modifies this
      ensures r == if |old(rest)| < n then None else Some(old(rest)[..n])
      ensures rest == if |old(rest)| < n then [] else old(rest)[n..]
    {
      if |rest| < n {
        rest := [];
        return None;
      }
      r := Some(rest[..n]);
      rest := rest[n..];
    }

    method HeaderFromReader() returns (r: Parsed<Header>)
      modifies this
      ensures r == ParseHeader(old(rest)) && rest == r.rest
    {
      ghost var s := rest;
      var first := ReadExact(V1_SIZE);
      if first.None? {
        return ParseFailed(Io, rest);
      }
      var v1 := first.value;
      assert v1[0..4] == s[0..4] && v1[4..8] == s[4..8] && rest == s[8..];
      var protocol := ProtocolOf(FromBE32(v1[0..4]));
      match protocol {
        case None => return ParseFailed(InvalidData, rest);
        case Some(ProtoVersion) => return Parsed(V1(ProtoVersion, FromBE32(v1[4..8])), rest);
        case Some(other) =>
          var more := ReadExact(V2_SIZE - V1_SIZE);
          if more.None? {
            return ParseFailed(Io, rest);
          }
          var v2 := more.value;
          SliceOfRest(s);
          assert v2 == s[8..16] && rest == s[16..];
          assert v2[0..4] == s[8..12] && v2[4..6] == s[12..14] && v2[6..8] == s[14..16];
          var magic, sendSeq, recvSeq := FromBE32(v2[0..4]), FromBE16(v2[4..6]), FromBE16(v2[6..8]);
          return Parsed(V2(other, FromBE32(v1[4..8]), magic, sendSeq, recvSeq), rest);
      }
    }

    method FromReader() returns (r: Parsed<Packet>)
      modifies this
      ensures r == Parse(old(rest)) && rest == r.rest
    {
      var h := HeaderFromReader();
      if h.ParseFailed? {
        return ParseFailed(h.error, rest);
      }
      var header := h.value;
      var tcp: Option<TcpHeader> := None;
      if header.protocol == ProtoTcp {
        var buff := ReadExact(TCP_MIN_LEN);
        if buff.None? {
          return ParseFailed(Io, rest);
        }
        tcp := DecodeTcp(buff.value);
        if tcp.None? {
          return ParseFailed(InvalidData, rest);
        }
      }
      var headers := HeaderSize(header) + TcpLen(tcp);
      if header.length < headers {
        return ParseFailed(InvalidData, rest);
      }
      var payload := ReadExact(header.length - headers);
      if payload.None? {
        return ParseFailed(Io, rest);
      }
      var decoded := DecodePayload(payload.value, header.protocol);
      if decoded.None? {
        return ParseFailed(Panics, rest);
      }
      return Parsed(Packet(header, tcp, decoded.value), rest);
    }
  }
}
