// What every step of a `RusbmuxStream` keeps, whatever the other tasks do in between, and
// what follows for the two byte streams and for acknowledgments.

module StreamInvariant {
  import opened Common
  import opened Packets
  import opened Conn
  import opened StreamSpec

  // ----- totals of a trace; none of them mentions the connection's counters -----

  function Front(tr: seq<Event>): seq<Event>
    requires tr != []
  {
    tr[..|tr| - 1]
  }

  function Last(tr: seq<Event>): Event
    requires tr != []
  {
    tr[|tr| - 1]
  }

  /** Unbounded number of payload bytes enqueued by this stream. */
  function BytesSent(tr: seq<Event>): nat {
    if tr == [] then 0
    else BytesSent(Front(tr)) + (if Last(tr).Data? then PayloadLen(Last(tr).packet.payload) else 0)
  }

  /** The payloads of the enqueued data packets, in order. */
  function SentBytes(tr: seq<Event>): seq<u8> {
    if tr == [] then []
    else SentBytes(Front(tr)) + (if Last(tr).Data? then EncodePayload(Last(tr).packet.payload) else [])
  }

  /** What the caller believes was written: of each completed write, the reported prefix of
      the buffer the completing call was given. */
  function Reported(tr: seq<Event>): seq<u8> {
    if tr == [] then []
    else Reported(Front(tr)) + (if Last(tr).Data? then Last(tr).buf[..Min(Last(tr).written, |Last(tr).buf|)] else [])
  }

  /** The payloads of all packets taken from the receive channel, in order. */
  function Received(tr: seq<Event>): seq<u8> {
    if tr == [] then []
    else Received(Front(tr)) + (if Last(tr).Took? then EncodePayload(Last(tr).packet.payload) else [])
  }

  /** The packets put on the send channel, in order. */
  function SentPackets(tr: seq<Event>): seq<Packet> {
    if tr == [] then []
    else SentPackets(Front(tr)) + (if Last(tr).Flag? || Last(tr).Data? then [Last(tr).packet] else [])
  }

  /** The packets taken from the receive channel, in order. */
  function TakenPackets(tr: seq<Event>): seq<Packet> {
    if tr == [] then [] else TakenPackets(Front(tr)) + (if Last(tr).Took? then [Last(tr).packet] else [])
  }

  /** The bytes handed to readers, in order. */
  function Given(tr: seq<Event>): seq<u8> {
    if tr == [] then []
    else Given(Front(tr)) + (if Last(tr).Gave? then Last(tr).bytes else [])
  }

  /** An ACK is owed exactly when the last thing that happened was taking a packet. */
  predicate Owed(tr: seq<Event>) {
    tr != [] && Last(tr).Took?
  }

  predicate IsTcpTake(e: Event) {
    e.Took? && e.packet.tcp.Some?
  }

  /** SEG.SEQ + SEG.LEN of the last TCP packet taken: the acknowledgment now due. */
  function Acknowledging(first: u32, tr: seq<Event>): u32 {
    if tr == [] then first
    else if IsTcpTake(Last(tr)) then
      Add32(Last(tr).packet.tcp.value.sequenceNumber, PayloadLen(Last(tr).packet.payload))
    else Acknowledging(first, Front(tr))
  }

  function PeerAck(first: u32, tr: seq<Event>): u32 {
    if tr == [] then first
    else if IsTcpTake(Last(tr)) then Last(tr).packet.tcp.value.acknowledgmentNumber
    else PeerAck(first, Front(tr))
  }

  function PeerWindow(first: u16, tr: seq<Event>): u16 {
    if tr == [] then first
    else if IsTcpTake(Last(tr)) then Last(tr).packet.tcp.value.windowSize
    else PeerWindow(first, Front(tr))
  }

  // ----- the invariant -----

  ghost predicate SequencedAfter(c0: ConnState, pre: seq<Event>, p: Packet) {
    && p.tcp.Some?
    && p.tcp.value.sourcePort == c0.sourcePort
    && p.tcp.value.destinationPort == c0.destinationPort
    && p.tcp.value.sequenceNumber == (c0.sent + BytesSent(pre)) % 0x1_0000_0000
  }

  /** ACK is the only control bit set. */
  predicate IsAck(p: Packet) {
    p.tcp.Some? && p.tcp.value.ack && !p.tcp.value.rst && !p.tcp.value.syn && !p.tcp.value.fin
  }

  /** RST is the only control bit set. */
  predicate IsBareReset(p: Packet) {
    p.tcp.Some? && p.tcp.value.rst && !p.tcp.value.ack && !p.tcp.value.syn && !p.tcp.value.fin
  }

  function CountResets(tr: seq<Event>): nat {
    if tr == [] then 0
    else CountResets(Front(tr)) + (if Last(tr).Flag? && IsReset(Last(tr).packet) then 1 else 0)
  }

  /** What must be true of an event, given everything that happened before it. */
  ghost predicate EventOk(c0: ConnState, pre: seq<Event>, e: Event) {
    match e
    case Took(_) => !Owed(pre)
    case Gave(_) => !Owed(pre)
    case Flag(p) =>
      && SequencedAfter(c0, pre, p)
      && p.payload == Bytes([])
      && p.tcp.value.acknowledgmentNumber == Acknowledging(c0.received, pre)
      && (IsBareReset(p) || (IsAck(p) && Owed(pre)))
    case Data(p, _, origin, builtAt, written) =>
      && !Owed(pre)
      && SequencedAfter(c0, pre, p)
      && IsAck(p)
      && builtAt <= |pre| && p.tcp.value.acknowledgmentNumber == Acknowledging(c0.received, pre[..builtAt])
      && 1 <= written <= Min(|origin|, MAX_PACKET_PAYLOAD_SIZE)
      && p.payload == Bytes(origin[..written])
  }

  ghost predicate TraceOk(c0: ConnState, tr: seq<Event>) {
    forall i :: 0 <= i < |tr| ==> EventOk(c0, tr[..i], tr[i])
  }

  /** A packet waiting for a free slot is the next `lastWriteLen` bytes of the stream. */
  ghost predicate ParkedOk(c0: ConnState, s: StreamState)
    requires s.parked.Some?
  {
    var p := s.parked.value;
    && SequencedAfter(c0, s.trace, p)
    && IsAck(p)
    && s.builtAt <= |s.trace|
    && p.tcp.value.acknowledgmentNumber == Acknowledging(c0.received, s.trace[..s.builtAt])
    && 1 <= s.lastWriteLen <= Min(|s.origin|, MAX_PACKET_PAYLOAD_SIZE)
    && p.payload == Bytes(s.origin[..s.lastWriteLen])
  }

  /** The connection's fields are what the trace says, modulo 2^32. */
  ghost predicate CountersOk(c0: ConnState, c: ConnState, tr: seq<Event>) {
    && c.sourcePort == c0.sourcePort && c.destinationPort == c0.destinationPort
    && c.sent == (c0.sent + BytesSent(tr)) % 0x1_0000_0000
    && c.received == Acknowledging(c0.received, tr)
    && c.deviceReceived == PeerAck(c0.deviceReceived, tr)
    && c.deviceWindow == PeerWindow(c0.deviceWindow, tr)
    && CountResets(tr) == (if c.dropped then 1 else 0)
  }

  ghost predicate Inv(c0: ConnState, s: StreamState) {
    && CountersOk(c0, s.conn, s.trace)
    && s.needAck == Owed(s.trace)
    && (!s.needAck ==> s.conn.sendable == FreshSendable(s.conn))
    && Given(s.trace) + s.readBuf == Received(s.trace)
    && (s.parked.Some? ==> ParkedOk(c0, s))
    && TraceOk(c0, s.trace)
  }

  // ----- it holds on every run -----

  lemma Snoc(tr: seq<Event>, e: Event)
    ensures Front(tr + [e]) == tr && Last(tr + [e]) == e
  {
  }

  lemma TookSnoc(c0: ConnState, c: ConnState, tr: seq<Event>, p: Packet)
    requires CountersOk(c0, c, tr)
    ensures var tr' := tr + [Took(p)];
            && CountersOk(c0, AfterPacket(c, p), tr')
            && BytesSent(tr') == BytesSent(tr)
            && Received(tr') == Received(tr) + EncodePayload(p.payload)
            && Given(tr') == Given(tr)
            && Owed(tr')
  {
    Snoc(tr, Took(p));
  }

  lemma DataSnoc(c0: ConnState, c: ConnState, tr: seq<Event>, e: Event)
    requires CountersOk(c0, c, tr) && e.Data?
    ensures var tr' := tr + [e];
            && CountersOk(c0, AfterSending(c, PayloadLen(e.packet.payload)), tr')
            && Received(tr') == Received(tr)
            && Given(tr') == Given(tr)
            && !Owed(tr')
  {
    Snoc(tr, e);
    Add32Tracks(c0.sent + BytesSent(tr), PayloadLen(e.packet.payload));
  }

  lemma FlagSnoc(c0: ConnState, c: ConnState, tr: seq<Event>, p: Packet)
    requires CountersOk(c0, c, tr) && (IsReset(p) ==> !c.dropped)
    ensures var tr' := tr + [Flag(p)];
            && CountersOk(c0, c.(dropped := c.dropped || IsReset(p)), tr')
            && BytesSent(tr') == BytesSent(tr)
            && Received(tr') == Received(tr)
            && Given(tr') == Given(tr)
            && !Owed(tr')
  {
    Snoc(tr, Flag(p));
  }

  lemma GaveSnoc(c0: ConnState, c: ConnState, tr: seq<Event>, bytes: seq<u8>)
    requires CountersOk(c0, c, tr)
    ensures var tr' := tr + [Gave(bytes)];
            && CountersOk(c0, c, tr')
            && BytesSent(tr') == BytesSent(tr)
            && Received(tr') == Received(tr)
            && Given(tr') == Given(tr) + bytes
            && !Owed(tr')
  {
    Snoc(tr, Gave(bytes));
  }

  lemma TraceOkSnoc(c0: ConnState, tr: seq<Event>, e: Event)
    requires TraceOk(c0, tr) && EventOk(c0, tr, e)
    ensures TraceOk(c0, tr + [e])
  {
    var tr' := tr + [e];
    forall i | 0 <= i < |tr'| ensures EventOk(c0, tr'[..i], tr'[i]) {
      if i < |tr| { assert tr'[..i] == tr[..i]; } else { assert tr'[..i] == tr; }
    }
  }

  /** A parked packet stays the next bytes of the stream while nothing else is sent. */
  lemma ParkedSnoc(c0: ConnState, s: StreamState, s': StreamState, e: Event)
    requires s.parked.Some? && ParkedOk(c0, s)
    requires s'.trace == s.trace + [e] && BytesSent(s'.trace) == BytesSent(s.trace)
    requires s'.parked == s.parked && s'.origin == s.origin && s'.builtAt == s.builtAt
    requires s'.lastWriteLen == s.lastWriteLen
    ensures ParkedOk(c0, s')
  {
    assert s'.trace[..s.builtAt] == s.trace[..s.builtAt];
  }

  /** Sending a flag, and marking the connection dropped if it is a reset. */
  function Flagged(s: StreamState, flags: TcpFlags): StreamState {
    var p := BuildFlag(s.conn, flags);
    s.(tx := s.tx + [p], conn := Refreshed(s.conn).(dropped := s.conn.dropped || flags.rst),
       needAck := false, trace := s.trace + [Flag(p)])
  }

  /** The flag just built is right for the trace before it. */
  lemma FlagIsOk(c0: ConnState, s: StreamState, flags: TcpFlags)
    requires CountersOk(c0, s.conn, s.trace)
    requires flags == RST || (flags == ACK && Owed(s.trace))
    ensures EventOk(c0, s.trace, Flag(BuildFlag(s.conn, flags)))
  {
  }

  lemma FlaggedKeeps(c0: ConnState, s: StreamState, flags: TcpFlags)
    requires Inv(c0, s)
    requires (flags == RST && !s.conn.dropped) || (flags == ACK && s.needAck)
    ensures Inv(c0, Flagged(s, flags))
  {
    var p, s' := BuildFlag(s.conn, flags), Flagged(s, flags);
    FlagSnoc(c0, s.conn, s.trace, p);
    assert TraceOk(c0, s'.trace) by {
      FlagIsOk(c0, s, flags);
      TraceOkSnoc(c0, s.trace, Flag(p));
    }
    assert s.parked.Some? ==> ParkedOk(c0, s') by {
      if s.parked.Some? { ParkedSnoc(c0, s, s', Flag(p)); }
    }
  }

  lemma SendAckKeeps(c0: ConnState, s: StreamState)
    requires Inv(c0, s) && s.needAck
    ensures Inv(c0, PollSendFlag(s, ACK).0)
  {
    if PollSendFlag(s, ACK).1.Ready? {
      FlaggedKeeps(c0, s, ACK);
      assert PollSendFlag(s, ACK).0 == Flagged(s, ACK);
    }
  }

  lemma ShutdownKeeps(c0: ConnState, s: StreamState)
    requires Inv(c0, s)
    ensures Inv(c0, PollShutdown(s).0)
  {
    if !s.conn.dropped && PollSendFlag(s, RST).1.Ready? {
      FlaggedKeeps(c0, s, RST);
      assert PollShutdown(s).0 == Flagged(s, RST);
    }
  }

  lemma Moved(given: seq<u8>, buf: seq<u8>, received: seq<u8>, n: nat)
    requires given + buf == received && n <= |buf|
    ensures (given + buf[..n]) + buf[n..] == received
  {
    assert buf == buf[..n] + buf[n..];
  }

  lemma Extended(given: seq<u8>, buf: seq<u8>, received: seq<u8>, more: seq<u8>)
    requires given + buf == received
    ensures given + (buf + more) == received + more
  {
  }

  lemma ReceiveKeeps(c0: ConnState, s: StreamState)
    requires Inv(c0, s) && !s.needAck
    ensures Inv(c0, PollRecv(s).0)
  {
    if s.rx != [] {
      var p, s' := s.rx[0], PollRecv(s).0;
      TookSnoc(c0, s.conn, s.trace, p);
      assert TraceOk(c0, s'.trace) by { TraceOkSnoc(c0, s.trace, Took(p)); }
      Extended(Given(s.trace), s.readBuf, Received(s.trace), EncodePayload(p.payload));
      assert s.parked.Some? ==> ParkedOk(c0, s') by {
        if s.parked.Some? { ParkedSnoc(c0, s, s', Took(p)); }
      }
    }
  }

  lemma DeliverKeeps(c0: ConnState, s: StreamState, room: nat)
    requires Inv(c0, s) && !s.needAck
    ensures Inv(c0, Give(s, room))
  {
    var n, s' := Min(|s.readBuf|, room), Give(s, room);
    var e := Gave(s.readBuf[..n]);
    GaveSnoc(c0, s.conn, s.trace, s.readBuf[..n]);
    assert TraceOk(c0, s'.trace) by { TraceOkSnoc(c0, s.trace, e); }
    Moved(Given(s.trace), s.readBuf, Received(s.trace), n);
    assert s.parked.Some? ==> ParkedOk(c0, s') by {
      if s.parked.Some? { ParkedSnoc(c0, s, s', e); }
    }
  }

  lemma BuildKeeps(c0: ConnState, s: StreamState, buf: seq<u8>)
    requires Inv(c0, s) && Enabled(s, Build(buf))
    ensures Inv(c0, Park(s, buf))
  {
    assert s.trace[..|s.trace|] == s.trace;
  }

  lemma FlushKeeps(c0: ConnState, s: StreamState, buf: seq<u8>)
    requires Inv(c0, s) && Enabled(s, Flush(buf))
    ensures Inv(c0, PollSendPending(s, buf).0)
  {
    if PollSendPending(s, buf).1.Ready? {
      var e := Data(s.parked.value, buf, s.origin, s.builtAt, s.lastWriteLen);
      DataSnoc(c0, s.conn, s.trace, e);
      assert TraceOk(c0, s.trace + [e]) by { TraceOkSnoc(c0, s.trace, e); }
    }
  }

  /** What the other tasks do touches nothing but the channels. */
  lemma ChannelsOnlyKeeps(c0: ConnState, s: StreamState, s': StreamState)
    requires Inv(c0, s)
    requires s' == s.(rx := s'.rx, rxOpen := s'.rxOpen, tx := s'.tx, txOpen := s'.txOpen)
    ensures Inv(c0, s')
  {
  }

  lemma StepKeepsInv(c0: ConnState, s: StreamState, a: Step)
    requires Inv(c0, s) && Enabled(s, a)
    ensures Inv(c0, Apply(s, a))
  {
    match a
    case SendAck => SendAckKeeps(c0, s);
    case Shutdown => ShutdownKeeps(c0, s);
    case Receive => ReceiveKeeps(c0, s);
    case Deliver(room) => DeliverKeeps(c0, s, room);
    case Build(buf) => BuildKeeps(c0, s, buf);
    case Flush(buf) => FlushKeeps(c0, s, buf);
    case _ => ChannelsOnlyKeeps(c0, s, Apply(s, a));
  }

  lemma {:induction false} RunKeepsInv(c0: ConnState, s: StreamState, run: seq<Step>)
    requires Inv(c0, s) && Legal(s, run)
    ensures Inv(c0, Run(s, run))
    decreases |run|
  {
    if run != [] {
      StepKeepsInv(c0, s, run[0]);
      RunKeepsInv(c0, Apply(s, run[0]), run[1..]);
    }
  }

  /** Main invariant: it holds after every interleaving of the stream's steps with anything
      the other tasks do to the two channels. */
  lemma InvOnEveryRun(s: StreamState, run: seq<Step>)
    requires Initial(s) && Legal(s, run)
    ensures Inv(s.conn, Run(s, run))
  {
    RunKeepsInv(s.conn, s, run);
  }

  /** In particular it holds between polls, whichever poll is called and however it ends. */
  lemma PollsKeepInv(c0: ConnState, s: StreamState, room: nat, buf: seq<u8>)
    requires Inv(c0, s)
    ensures Inv(c0, PollRead(s, room).0) && Inv(c0, PollWrite(s, buf).0) && Inv(c0, PollShutdown(s).0)
  {
    var reading := PollReadIsARun(s, room);
    RunKeepsInv(c0, s, reading);
    var writing := PollWriteIsARun(s, buf);
    RunKeepsInv(c0, s, writing);
    if !s.conn.dropped { StepKeepsInv(c0, s, Shutdown); }
  }

  // ----- exactly-once writes -----

  /** The call that completed the write was given a buffer that starts with what was sent. */
  predicate CompletesItsWrite(e: Event) {
    e.Data? ==> e.written <= |e.origin| && e.origin[..e.written] <= e.buf
  }

  ghost predicate WritesAreCompleted(tr: seq<Event>) {
    forall i :: 0 <= i < |tr| ==> CompletesItsWrite(tr[i])
  }

  lemma FrontOk(c0: ConnState, tr: seq<Event>)
    requires tr != [] && TraceOk(c0, tr)
    ensures TraceOk(c0, Front(tr)) && EventOk(c0, Front(tr), Last(tr))
  {
    forall i | 0 <= i < |Front(tr)| ensures EventOk(c0, Front(tr)[..i], Front(tr)[i]) {
      assert Front(tr)[..i] == tr[..i];
    }
  }

  /** Equal concatenations of pieces that are no longer on the left have equal pieces. */
  lemma EqualPieces(a: seq<u8>, b: seq<u8>, x: seq<u8>, y: seq<u8>)
    requires |a| <= |b| && |x| <= |y|
    ensures a + x == b + y <==> a == b && x == y
  {
    if a + x == b + y {
      assert |a + x| == |b + y|;
      assert a == (a + x)[..|a|] && b == (b + y)[..|b|];
      assert x == (a + x)[|a|..] && y == (b + y)[|b|..];
    }
  }

  lemma CompletedFront(tr: seq<Event>)
    requires tr != []
    ensures WritesAreCompleted(tr) <==> WritesAreCompleted(Front(tr)) && CompletesItsWrite(Last(tr))
  {
    if WritesAreCompleted(Front(tr)) && CompletesItsWrite(Last(tr)) {
      forall i | 0 <= i < |tr| ensures CompletesItsWrite(tr[i]) {
        assert i < |tr| - 1 ==> tr[i] == Front(tr)[i];
      }
    }
    if WritesAreCompleted(tr) {
      forall i | 0 <= i < |Front(tr)| ensures CompletesItsWrite(Front(tr)[i]) {
        assert CompletesItsWrite(tr[i]);
      }
    }
  }

  lemma ReportedPiece(c0: ConnState, pre: seq<Event>, e: Event)
    requires e.Data? && EventOk(c0, pre, e)
    ensures var piece, sent := e.buf[..Min(e.written, |e.buf|)], EncodePayload(e.packet.payload);
            |piece| <= |sent| && (piece == sent <==> CompletesItsWrite(e))
  {
  }

  function ReportedBy(e: Event): seq<u8> {
    if e.Data? then e.buf[..Min(e.written, |e.buf|)] else []
  }

  function SentBy(e: Event): seq<u8> {
    if e.Data? then EncodePayload(e.packet.payload) else []
  }

  ghost predicate ReportedExactly(tr: seq<Event>) {
    && |Reported(tr)| <= |SentBytes(tr)|
    && (Reported(tr) == SentBytes(tr) <==> WritesAreCompleted(tr))
  }

  /** One more event. */
  lemma ReportedStep(c0: ConnState, tr: seq<Event>)
    requires tr != [] && EventOk(c0, Front(tr), Last(tr)) && ReportedExactly(Front(tr))
    ensures ReportedExactly(tr)
  {
    var e := Last(tr);
    assert Reported(tr) == Reported(Front(tr)) + ReportedBy(e);
    assert SentBytes(tr) == SentBytes(Front(tr)) + SentBy(e);
    if e.Data? { ReportedPiece(c0, Front(tr), e); }
    EqualPieces(Reported(Front(tr)), SentBytes(Front(tr)), ReportedBy(e), SentBy(e));
    CompletedFront(tr);
  }

  lemma {:induction false} ReportedIsSentExactly(c0: ConnState, tr: seq<Event>)
    requires TraceOk(c0, tr)
    ensures ReportedExactly(tr)
  {
    if tr != [] {
      FrontOk(c0, tr);
      ReportedIsSentExactly(c0, Front(tr));
      ReportedStep(c0, tr);
    }
  }

  /** Exactly-once writes, on every run: what was reported as written is, byte for byte and in
      order, what was put on the channel, if and only if every write was completed by a call whose
      buffer starts with the bytes the packet was built from. */
  lemma WritesAreExactlyOnce(s: StreamState, run: seq<Step>)
    requires Initial(s) && Legal(s, run)
    ensures Reported(Run(s, run).trace) == SentBytes(Run(s, run).trace) <==> WritesAreCompleted(Run(s, run).trace)
  {
    InvOnEveryRun(s, run);
    ReportedIsSentExactly(s.conn, Run(s, run).trace);
  }

  /** A write built from `a` finds the channel full; the caller gives up on it and writes `b`. */
  function AbandonedWrite(a: u8, b: u8): seq<Step> {
    [Build([a]), Flush([a])] + [Drain, Flush([b])]
  }

  lemma ParksBehindFullChannel(s: StreamState, a: u8) returns (s': StreamState)
    requires Initial(s) && s.conn.sendable > 0 && s.txOpen && |s.tx| == CHANNEL_CAPACITY
    ensures Legal(s, [Build([a]), Flush([a])]) && s' == Run(s, [Build([a]), Flush([a])])
    ensures s'.parked.Some? && EncodePayload(s'.parked.value.payload) == [a] && s'.lastWriteLen == 1
    ensures s'.trace == [] && !s'.needAck && s'.txOpen && |s'.tx| == CHANNEL_CAPACITY
  {
    TwoSteps(s, Build([a]), Flush([a]));
    s' := Apply(Apply(s, Build([a])), Flush([a]));
  }

  lemma GetsASlot(s: StreamState, b: u8) returns (e: Event)
    requires s.parked.Some? && !s.needAck && s.txOpen && |s.tx| == CHANNEL_CAPACITY
    ensures Legal(s, [Drain, Flush([b])]) && Run(s, [Drain, Flush([b])]).trace == s.trace + [e]
    ensures e.Data? && e.packet == s.parked.value && e.buf == [b] && e.written == s.lastWriteLen
  {
    TwoSteps(s, Drain, Flush([b]));
    e := Data(s.parked.value, [b], s.origin, s.builtAt, s.lastWriteLen);
  }

  /** Whoever does that is told that `b` was written, when `a` was sent. */
  lemma AbandonedWriteIsMisreported(s: StreamState, a: u8, b: u8)
    requires Initial(s) && s.conn.sendable > 0 && s.txOpen && |s.tx| == CHANNEL_CAPACITY
    ensures Legal(s, AbandonedWrite(a, b))
    ensures Reported(Run(s, AbandonedWrite(a, b)).trace) == [b] && SentBytes(Run(s, AbandonedWrite(a, b)).trace) == [a]
  {
    var s' := ParksBehindFullChannel(s, a);
    var e := GetsASlot(s', b);
    RunConcat(s, [Build([a]), Flush([a])], [Drain, Flush([b])]);
    assert Run(s, AbandonedWrite(a, b)).trace == [e];
    OneWrite(e, a, b);
  }

  lemma OneWrite(e: Event, a: u8, b: u8)
    requires e.Data? && EncodePayload(e.packet.payload) == [a] && e.buf == [b] && e.written == 1
    ensures Reported([e]) == [b] && SentBytes([e]) == [a]
  {
    assert Front([e]) == [] && Last([e]) == e;
  }

  /** One write in isolation, with no assumption on the caller: the reported count is the
      number of bytes sent, and the reported bytes are the sent ones exactly when the completing
      buffer starts with the bytes the packet was built from. */
  lemma WriteReportsWhatItSent(s: StreamState, run: seq<Step>, i: nat)
    requires Initial(s) && Legal(s, run)
    requires i < |Run(s, run).trace| && Run(s, run).trace[i].Data?
    ensures var e := Run(s, run).trace[i];
            && e.written == |EncodePayload(e.packet.payload)|
            && (e.buf[..Min(e.written, |e.buf|)] == EncodePayload(e.packet.payload)
                <==> e.origin[..Min(e.written, |e.origin|)] <= e.buf)
  {
    InvOnEveryRun(s, run);
    var tr := Run(s, run).trace;
    assert EventOk(s.conn, tr[..i], tr[i]);
  }

  // ----- the read direction -----

  /** Nothing taken from the channel, inside a read or inside a write, is lost, duplicated or
      reordered on its way to the reader. */
  lemma ReadsRefineTheChannel(s: StreamState, run: seq<Step>)
    requires Initial(s) && Legal(s, run)
    ensures Given(Run(s, run).trace) + Run(s, run).readBuf == Received(Run(s, run).trace)
  {
    InvOnEveryRun(s, run);
  }

  // ----- acknowledgments -----

  function CountTaken(tr: seq<Event>): nat {
    if tr == [] then 0 else CountTaken(Front(tr)) + (if Last(tr).Took? then 1 else 0)
  }

  function CountAcks(tr: seq<Event>): nat {
    if tr == [] then 0
    else CountAcks(Front(tr)) + (if Last(tr).Flag? && IsAck(Last(tr).packet) then 1 else 0)
  }

  lemma {:induction false} AcksMatchTakes(c0: ConnState, tr: seq<Event>)
    requires TraceOk(c0, tr) && CountResets(tr) == 0
    requires forall i :: 0 < i < |tr| && tr[i - 1].Took? ==> tr[i].Flag?
    ensures CountTaken(tr) == CountAcks(tr) + (if Owed(tr) then 1 else 0)
  {
    if tr != [] {
      FrontOk(c0, tr);
      AcksMatchTakes(c0, Front(tr));
      if Owed(Front(tr)) { assert tr[|tr| - 2].Took?; }
    }
  }

  /** While an ACK is owed nothing else happens: the very next event after taking a packet is a
      flag, and it carries the packet's sequence number plus its length. */
  lemma TakesAreAcknowledgedNext(s: StreamState, run: seq<Step>, i: nat)
    requires Initial(s) && Legal(s, run)
    requires i + 1 < |Run(s, run).trace| && Run(s, run).trace[i].Took?
    ensures var tr := Run(s, run).trace;
            && tr[i + 1].Flag?
            && (IsAck(tr[i + 1].packet) || IsBareReset(tr[i + 1].packet))
            && tr[i + 1].packet.tcp.value.acknowledgmentNumber
               == (match tr[i].packet.tcp
                   case Some(h) => Add32(h.sequenceNumber, PayloadLen(tr[i].packet.payload))
                   case None => Acknowledging(s.conn.received, tr[..i]))
  {
    InvOnEveryRun(s, run);
    FlagFollowsTake(s.conn, Run(s, run).trace, i);
  }

  lemma FlagFollowsTake(c0: ConnState, tr: seq<Event>, i: nat)
    requires TraceOk(c0, tr) && i + 1 < |tr| && tr[i].Took?
    ensures tr[i + 1].Flag?
    ensures var p := tr[i + 1].packet;
            && p.tcp.Some? && (IsAck(p) || IsBareReset(p))
            && p.tcp.value.acknowledgmentNumber == Acknowledging(c0.received, tr[..i] + [tr[i]])
  {
    assert tr[..i + 1] == tr[..i] + [tr[i]];
    Snoc(tr[..i], tr[i]);
    assert EventOk(c0, tr[..i + 1], tr[i + 1]);
  }

  /** ACK discipline, on every run until shutdown: one ACK per packet taken, except for the one
      still owed when `need_ack` is set. */
  lemma AckDiscipline(s: StreamState, run: seq<Step>)
    requires Initial(s) && Legal(s, run)
    requires !Run(s, run).conn.dropped
    ensures CountTaken(Run(s, run).trace)
         == CountAcks(Run(s, run).trace) + (if Run(s, run).needAck then 1 else 0)
  {
    InvOnEveryRun(s, run);
    var tr := Run(s, run).trace;
    forall i | 0 < i < |tr| && tr[i - 1].Took? ensures tr[i].Flag? {
      TakesAreAcknowledgedNext(s, run, i - 1);
    }
    AcksMatchTakes(s.conn, tr);
  }

  /** Shutdown: over any run at most one reset is sent, and one has been sent exactly when the
      connection is marked dropped. */
  lemma OneResetPerStream(s: StreamState, run: seq<Step>)
    requires Initial(s) && Legal(s, run)
    ensures CountResets(Run(s, run).trace) == (if Run(s, run).conn.dropped then 1 else 0)
  {
    InvOnEveryRun(s, run);
  }
}
