// A stream's bytes all the way: from `poll_write` through the shared writer channel, the writer
// loop and the bulk transfers to the frames the device parses.

module EndToEnd {
  import opened Common
  import opened Packets
  import opened Conn
  import opened StreamSpec
  import opened StreamInvariant
  import opened Codec
  import opened Framing
  import opened RusbWriter

  // ----- the writer channel over a run -----

  /** What the step puts on the writer channel, by this stream or by others. */
  function Enqueues(s: StreamState, a: Step): seq<Packet>
    requires Enabled(s, a)
  {
    if |Apply(s, a).tx| > |s.tx| then [Apply(s, a).tx[|s.tx|]] else []
  }

  /** What the step takes from it, for the writer loop. */
  function Drains(s: StreamState, a: Step): seq<Packet>
    requires Enabled(s, a)
  {
    if a.Drain? then [s.tx[0]] else []
  }

  ghost function Enqueued(s: StreamState, run: seq<Step>): seq<Packet>
    requires Legal(s, run)
    decreases |run|
  {
    if run == [] then [] else Enqueues(s, run[0]) + Enqueued(Apply(s, run[0]), run[1..])
  }

  /** The packets the writer loop is given during the run. */
  ghost function Drained(s: StreamState, run: seq<Step>): seq<Packet>
    requires Legal(s, run)
    decreases |run|
  {
    if run == [] then [] else Drains(s, run[0]) + Drained(Apply(s, run[0]), run[1..])
  }

  lemma StepKeepsOrder(s: StreamState, a: Step)
    requires Enabled(s, a)
    ensures s.tx + Enqueues(s, a) == Drains(s, a) + Apply(s, a).tx
  {
  }

  lemma OrderChains<T>(
    tx: seq<T>, news: seq<T>, given: seq<T>, tx': seq<T>, later: seq<T>, laterGiven: seq<T>, end: seq<T>)
    requires tx + news == given + tx' && tx' + later == laterGiven + end
    ensures tx + (news + later) == (given + laterGiven) + end
  {
    assert tx + (news + later) == (given + tx') + later == given + (tx' + later);
  }

  /** The channel is first in, first out and loses nothing: what was queued followed by everything
      enqueued is what the writer loop was given followed by what is still queued. */
  lemma {:induction false} ChannelKeepsOrder(s: StreamState, run: seq<Step>)
    requires Legal(s, run)
    ensures s.tx + Enqueued(s, run) == Drained(s, run) + Run(s, run).tx
    decreases |run|
  {
    if run != [] {
      var s', rest := Apply(s, run[0]), run[1..];
      StepKeepsOrder(s, run[0]);
      ChannelKeepsOrder(s', rest);
      OrderChains(s.tx, Enqueues(s, run[0]), Drains(s, run[0]), s'.tx,
                  Enqueued(s', rest), Drained(s', rest), Run(s', rest).tx);
    }
  }

  /** What the stream itself puts on the channel during the run: everything enqueued by steps that are
      not another sender's. */
  ghost function OwnEnqueued(s: StreamState, run: seq<Step>): seq<Packet>
    requires Legal(s, run)
    decreases |run|
  {
    if run == [] then []
    else (if run[0].OtherSend? then [] else Enqueues(s, run[0])) + OwnEnqueued(Apply(s, run[0]), run[1..])
  }

  lemma SendsSnoc(tr: seq<Event>, e: Event)
    ensures SentPackets(tr + [e]) == SentPackets(tr) + if e.Flag? || e.Data? then [e.packet] else []
    ensures TakenPackets(tr + [e]) == TakenPackets(tr) + if e.Took? then [e.packet] else []
  {
    Snoc(tr, e);
  }

  /** A step that adds an event to the trace. */
  lemma EventStepSends(s: StreamState, a: Step, e: Event)
    requires Enabled(s, a) && Apply(s, a).trace == s.trace + [e]
    ensures !a.OtherSend? && !a.Arrive?
    ensures Enqueues(s, a) == if e.Flag? || e.Data? then [e.packet] else []
    ensures s.rx == (if e.Took? then [e.packet] else []) + Apply(s, a).rx
  {
    assert (s.trace + [e])[|s.trace|] == e;
  }

  /** A step that adds none. */
  lemma SilentStepSends(s: StreamState, a: Step)
    requires Enabled(s, a) && |Apply(s, a).trace| == |s.trace|
    ensures Enqueues(s, a) == if a.OtherSend? then [a.packet] else []
    ensures Apply(s, a).rx == s.rx + if a.Arrive? then [a.packet] else []
  {
  }

  /** What a step takes from the receive channel and adds to it. */
  ghost predicate RxKeepsOrder(s: StreamState, a: Step, tr: seq<Event>, rx: seq<Packet>) {
    TakenPackets(s.trace) + (s.rx + if a.Arrive? then [a.packet] else []) == TakenPackets(tr) + rx
  }

  lemma SilentStepKeepsRx(s: StreamState, a: Step, rx: seq<Packet>)
    requires Enabled(s, a) && |Apply(s, a).trace| == |s.trace| && rx == Apply(s, a).rx
    ensures RxKeepsOrder(s, a, s.trace, rx)
  {
    SilentStepSends(s, a);
  }

  lemma TakenFromFront(taken: seq<Packet>, rx: seq<Packet>, front: seq<Packet>, rx': seq<Packet>)
    requires rx == front + rx'
    ensures taken + (rx + []) == (taken + front) + rx'
  {
  }

  lemma EventStepKeepsRx(s: StreamState, a: Step, e: Event, rx: seq<Packet>)
    requires Enabled(s, a) && Apply(s, a).trace == s.trace + [e] && rx == Apply(s, a).rx
    ensures RxKeepsOrder(s, a, s.trace + [e], rx)
  {
    EventStepSends(s, a, e);
    SendsSnoc(s.trace, e);
    TakenFromFront(TakenPackets(s.trace), s.rx, if e.Took? then [e.packet] else [], rx);
  }

  lemma StepSends(s: StreamState, a: Step, tr: seq<Event>, rx: seq<Packet>)
    requires Enabled(s, a) && tr == Apply(s, a).trace && rx == Apply(s, a).rx
    requires tr == s.trace || (tr != [] && Front(tr) == s.trace)
    ensures SentPackets(tr) == SentPackets(s.trace) + if a.OtherSend? then [] else Enqueues(s, a)
    ensures RxKeepsOrder(s, a, tr, rx)
  {
    if tr == s.trace {
      SilentStepSends(s, a);
      SilentStepKeepsRx(s, a, rx);
    } else {
      var e := Last(tr);
      assert tr == s.trace + [e];
      EventStepSends(s, a, e);
      EventStepKeepsRx(s, a, e, rx);
      SendsSnoc(s.trace, e);
    }
  }

  /** The trace is true of the writer channel: the ACKs, resets and data packets it records are, one
      for one and in order, what the stream put there. */
  lemma {:induction false} RecordedIsEnqueued(s: StreamState, run: seq<Step>)
    requires Legal(s, run)
    ensures SentPackets(Run(s, run).trace) == SentPackets(s.trace) + OwnEnqueued(s, run)
    decreases |run|
  {
    if run != [] {
      StepExtends(s, run[0]);
      StepSends(s, run[0], Apply(s, run[0]).trace, Apply(s, run[0]).rx);
      RecordedIsEnqueued(Apply(s, run[0]), run[1..]);
    }
  }

  lemma StepExtends(s: StreamState, a: Step)
    requires Enabled(s, a)
    ensures var tr := Apply(s, a).trace; tr == s.trace || (tr != [] && Front(tr) == s.trace)
  {
  }

  /** The packets the reader loop routes to the stream during the run. */
  function Arrivals(run: seq<Step>): seq<Packet> {
    if run == [] then [] else (if run[0].Arrive? then [run[0].packet] else []) + Arrivals(run[1..])
  }

  lemma ArrivalsChain(
    taken: seq<Packet>, rx: seq<Packet>, now: seq<Packet>, taken': seq<Packet>, rx': seq<Packet>, later: seq<Packet>)
    requires taken + (rx + now) == taken' + rx'
    ensures taken + (rx + (now + later)) == taken' + (rx' + later)
  {
    assert taken + (rx + (now + later)) == (taken + (rx + now)) + later;
    assert (taken' + rx') + later == taken' + (rx' + later);
  }

  /** And of the receive channel: what was taken followed by what is still waiting is what was waiting
      at first followed by everything that arrived, in order. */
  lemma {:induction false} PacketsAreTakenInOrder(s: StreamState, run: seq<Step>)
    requires Legal(s, run)
    ensures TakenPackets(s.trace) + (s.rx + Arrivals(run)) == TakenPackets(Run(s, run).trace) + Run(s, run).rx
    decreases |run|
  {
    if run == [] {
      assert s.rx + [] == s.rx;
    } else {
      var s' := Apply(s, run[0]);
      StepExtends(s, run[0]);
      StepSends(s, run[0], s'.trace, s'.rx);
      PacketsAreTakenInOrder(s', run[1..]);
      ArrivalsChain(TakenPackets(s.trace), s.rx, if run[0].Arrive? then [run[0].packet] else [],
                    TakenPackets(s'.trace), s'.rx, Arrivals(run[1..]));
    }
  }

  // ----- this stream's share of it -----

  predicate IsFrom(p: Packet, port: u16) {
    p.tcp.Some? && p.tcp.value.sourcePort == port
  }

  /** The payloads of the packets from one port, in order. */
  function Carried(ps: seq<Packet>, port: u16): seq<u8> {
    if ps == [] then []
    else (if IsFrom(ps[0], port) then EncodePayload(ps[0].payload) else []) + Carried(ps[1..], port)
  }

  lemma {:induction false} CarriedAppend(a: seq<Packet>, b: seq<Packet>, port: u16)
    ensures Carried(a + b, port) == Carried(a, port) + Carried(b, port)
  {
    if a == [] {
      assert a + b == b;
    } else {
      assert (a + b)[1..] == a[1..] + b;
      CarriedAppend(a[1..], b, port);
    }
  }

  /** What the builder makes within one packet's bound. */
  ghost predicate Sendable(p: Packet) {
    BuilderMade(p) && PayloadLen(p.payload) <= MAX_PACKET_PAYLOAD_SIZE
  }

  /** Whatever others put on the channel is such a packet and comes from another port. */
  ghost predicate OthersUseOtherPorts(run: seq<Step>, port: u16) {
    forall a :: a in run && a.OtherSend? ==> Sendable(a.packet) && !IsFrom(a.packet, port)
  }

  ghost predicate ParkedSendable(s: StreamState) {
    s.parked.Some? ==> Sendable(s.parked.value)
  }

  lemma BuiltIsSendable(c: ConnState, data: seq<u8>, flags: TcpFlags)
    requires |data| <= MAX_PACKET_PAYLOAD_SIZE
    ensures Sendable(BuildTcp(BuildTcpHeader(c.sourcePort, c.destinationPort, c.sent, c.received, flags), data))
  {
  }

  lemma StepEnqueuesSendable(c0: ConnState, s: StreamState, a: Step)
    requires Inv(c0, s) && Enabled(s, a) && ParkedSendable(s)
    requires a.OtherSend? ==> Sendable(a.packet)
    ensures ParkedSendable(Apply(s, a))
    ensures forall p :: p in Enqueues(s, a) ==> Sendable(p)
  {
    match a
    case SendAck => BuiltIsSendable(s.conn, [], ACK);
    case Shutdown => BuiltIsSendable(s.conn, [], RST);
    case Build(buf) => BuiltIsSendable(s.conn, buf[..Min(|buf|, s.conn.sendable)], ACK);
    case _ =>
  }

  lemma CarriedOne(p: Packet, port: u16)
    ensures Carried([p], port) == if IsFrom(p, port) then EncodePayload(p.payload) else []
  {
    assert [p][1..] == [];
  }

  lemma SentSnoc(tr: seq<Event>, e: Event)
    ensures SentBytes(tr + [e]) == SentBytes(tr) + if e.Data? then EncodePayload(e.packet.payload) else []
  {
    Snoc(tr, e);
  }

  lemma FlushCarries(c0: ConnState, s: StreamState, buf: seq<u8>)
    requires Inv(c0, s) && Enabled(s, Flush(buf))
    ensures var s' := Apply(s, Flush(buf));
            SentBytes(s'.trace) == SentBytes(s.trace) + Carried(Enqueues(s, Flush(buf)), c0.sourcePort)
  {
    if PollSendPending(s, buf).1.Ready? {
      var p := s.parked.value;
      SentSnoc(s.trace, Data(p, buf, s.origin, s.builtAt, s.lastWriteLen));
      assert Enqueues(s, Flush(buf)) == [p];
      CarriedOne(p, c0.sourcePort);
    }
  }

  lemma FlagCarries(s: StreamState, a: Step, flags: TcpFlags, port: u16)
    requires Enabled(s, a) && ((a == SendAck && flags == ACK) || (a == Shutdown && flags == RST))
    ensures SentBytes(Apply(s, a).trace) == SentBytes(s.trace) && Carried(Enqueues(s, a), port) == []
  {
    var p := BuildFlag(s.conn, flags);
    if PollSendFlag(s, flags).1.Ready? {
      SentSnoc(s.trace, Flag(p));
      assert Enqueues(s, a) == [p];
      CarriedOne(p, port);
    }
  }

  /** Steps that put nothing on the channel. */
  lemma QuietCarries(s: StreamState, a: Step)
    requires Enabled(s, a) && !a.Flush? && !a.SendAck? && !a.Shutdown? && !a.OtherSend?
    ensures SentBytes(Apply(s, a).trace) == SentBytes(s.trace) && Enqueues(s, a) == []
  {
    if a.Receive? && s.rx != [] {
      SentSnoc(s.trace, Took(s.rx[0]));
    } else if a.Deliver? {
      SentSnoc(s.trace, Gave(s.readBuf[..Min(|s.readBuf|, a.room)]));
    }
  }

  /** One step: the payload this stream enqueues is what its trace says was sent. */
  lemma StepCarries(c0: ConnState, s: StreamState, a: Step, s': StreamState, news: seq<Packet>)
    requires Inv(c0, s) && Enabled(s, a) && s' == Apply(s, a) && news == Enqueues(s, a)
    requires a.OtherSend? ==> !IsFrom(a.packet, c0.sourcePort)
    ensures SentBytes(s'.trace) == SentBytes(s.trace) + Carried(news, c0.sourcePort)
  {
    if a.Flush? {
      FlushCarries(c0, s, a.buf);
    } else if a.SendAck? {
      FlagCarries(s, a, ACK, c0.sourcePort);
    } else if a.Shutdown? {
      FlagCarries(s, a, RST, c0.sourcePort);
    } else if a.OtherSend? {
      assert news == [a.packet];
      CarriedOne(a.packet, c0.sourcePort);
    } else {
      QuietCarries(s, a);
    }
  }

  lemma CarriedChains(sent: seq<u8>, sent': seq<u8>, end: seq<u8>, a: seq<Packet>, b: seq<Packet>, port: u16)
    requires sent' == sent + Carried(a, port) && end == sent' + Carried(b, port)
    ensures end == sent + Carried(a + b, port)
  {
    CarriedAppend(a, b, port);
  }

  lemma {:induction false} RunCarries(c0: ConnState, s: StreamState, run: seq<Step>)
    requires Inv(c0, s) && Legal(s, run) && OthersUseOtherPorts(run, c0.sourcePort)
    ensures SentBytes(Run(s, run).trace) == SentBytes(s.trace) + Carried(Enqueued(s, run), c0.sourcePort)
    decreases |run|
  {
    if run != [] {
      var s', rest := Apply(s, run[0]), run[1..];
      assert run[0] in run;
      StepKeepsInv(c0, s, run[0]);
      StepCarries(c0, s, run[0], s', Enqueues(s, run[0]));
      RunCarries(c0, s', rest);
      CarriedChains(SentBytes(s.trace), SentBytes(s'.trace), SentBytes(Run(s', rest).trace),
                    Enqueues(s, run[0]), Enqueued(s', rest), c0.sourcePort);
    }
  }

  lemma {:induction false} RunEnqueuesSendable(c0: ConnState, s: StreamState, run: seq<Step>)
    requires Inv(c0, s) && ParkedSendable(s) && Legal(s, run) && OthersUseOtherPorts(run, c0.sourcePort)
    ensures forall p :: p in Enqueued(s, run) ==> Sendable(p)
    decreases |run|
  {
    if run != [] {
      assert run[0] in run;
      StepKeepsInv(c0, s, run[0]);
      StepEnqueuesSendable(c0, s, run[0]);
      RunEnqueuesSendable(c0, Apply(s, run[0]), run[1..]);
    }
  }

  /** What the channel holds of a stream when it is handed out: packets without payload, those of
      its handshake. */
  ghost predicate FreshChannel(s: StreamState) {
    && Carried(s.tx, s.conn.sourcePort) == []
    && forall p :: p in s.tx ==> Sendable(p)
  }

  /** On every run the payloads of this stream given to the writer loop, followed by those still
      queued, are exactly the bytes the stream sent. */
  lemma SentBytesAreDrainedOrQueued(s: StreamState, run: seq<Step>)
    requires Initial(s) && FreshChannel(s) && Legal(s, run)
    requires OthersUseOtherPorts(run, s.conn.sourcePort)
    ensures var port := s.conn.sourcePort;
            Carried(Drained(s, run), port) + Carried(Run(s, run).tx, port) == SentBytes(Run(s, run).trace)
    ensures forall p :: p in Drained(s, run) ==> Sendable(p)
  {
    var port := s.conn.sourcePort;
    InvOnEveryRun(s, []);
    RunCarries(s.conn, s, run);
    RunEnqueuesSendable(s.conn, s, run);
    ChannelKeepsOrder(s, run);
    CarriedAppend(s.tx, Enqueued(s, run), port);
    CarriedAppend(Drained(s, run), Run(s, run).tx, port);
    forall p | p in Drained(s, run) ensures Sendable(p) {
      assert p in Drained(s, run) + Run(s, run).tx;
      assert p in s.tx + Enqueued(s, run);
    }
  }

  // ----- at the device -----

  lemma {:induction false} StampKeepsPayloads(ps: seq<Packet>, turns: seq<Turn>, sendSeq: u16, port: u16)
    requires |ps| <= |turns|
    ensures Carried(StampAll(ps, turns, sendSeq), port) == Carried(ps, port)
  {
    if ps != [] {
      StampKeepsPayloads(ps[1..], turns[1..], NextSeq(ps[0], sendSeq), port);
      assert StampAll(ps, turns, sendSeq)[1..] == StampAll(ps[1..], turns[1..], NextSeq(ps[0], sendSeq));
    }
  }

  /** The later packets of a stamped series, as a series of their own. */
  lemma {:induction false} StampSplits(a: seq<Packet>, b: seq<Packet>, turns: seq<Turn>, sendSeq: u16)
    returns (next: u16)
    requires |a + b| <= |turns|
    ensures StampAll(a + b, turns, sendSeq)[|a|..] == StampAll(b, turns[|a|..], next)
    decreases |a|
  {
    if a == [] {
      next := sendSeq;
      assert a + b == b && turns[0..] == turns;
    } else {
      next := StampSplits(a[1..], b, turns[1..], NextSeq(a[0], sendSeq));
      assert (a + b)[1..] == a[1..] + b && turns[1..][|a| - 1..] == turns[|a|..];
      var rest := StampAll(a[1..] + b, turns[1..], NextSeq(a[0], sendSeq));
      assert StampAll(a + b, turns, sendSeq)[1..] == rest;
      assert StampAll(a + b, turns, sendSeq)[|a|..] == rest[|a| - 1..];
    }
  }

  /** The bytes of all bulk transfers made to the device for a series of packets. */
  function AllTransfers(maxPacketSize: nat, ps: seq<Packet>, turns: seq<Turn>): seq<u8>
    requires |ps| <= |turns|
  {
    Concat(WriteFrames(AfterSetup(maxPacketSize), FramesOf(StampAll(ps, turns, 1))).bulk)
  }

  /** End to end: after any run, the device parses the version packet, the setup packet and every
      packet the writer loop was given, `earlier` being those from before this stream; and the
      payloads of this stream among them, followed by those still queued, are byte for byte what the
      stream sent. */
  lemma StreamBytesReachTheDevice(
    s: StreamState, run: seq<Step>, earlier: seq<Packet>, turns: seq<Turn>, maxPacketSize: nat)
    requires Initial(s) && FreshChannel(s) && Legal(s, run)
    requires OthersUseOtherPorts(run, s.conn.sourcePort)
    requires forall p :: p in earlier ==> Sendable(p)
    requires |earlier + Drained(s, run)| <= |turns| && AllWrote(turns)
    ensures var given, port := earlier + Drained(s, run), s.conn.sourcePort;
            var got := StampAll(given, turns, 1);
            && ParseMany(AllTransfers(maxPacketSize, given, turns), |given| + 2)
               == Parsed([VERSION_PACKET, SETUP_PACKET] + got, [])
            && Carried(got[|earlier|..], port) + Carried(Run(s, run).tx, port) == SentBytes(Run(s, run).trace)
  {
    var given, port := earlier + Drained(s, run), s.conn.sourcePort;
    SentBytesAreDrainedOrQueued(s, run);
    DeviceReceivesEveryPacket(maxPacketSize, given, turns);
    var next := StampSplits(earlier, Drained(s, run), turns, 1);
    StampKeepsPayloads(Drained(s, run), turns[|earlier|..], next, port);
  }

  /** With the callers' side: if every write is completed by a call whose buffer starts with what was
      built, the bytes the callers were told were written are those the device has parsed, followed by
      those still queued. */
  lemma ReportedBytesReachTheDevice(
    s: StreamState, run: seq<Step>, earlier: seq<Packet>, turns: seq<Turn>, maxPacketSize: nat)
    requires Initial(s) && FreshChannel(s) && Legal(s, run)
    requires OthersUseOtherPorts(run, s.conn.sourcePort)
    requires forall p :: p in earlier ==> Sendable(p)
    requires |earlier + Drained(s, run)| <= |turns| && AllWrote(turns)
    ensures var given, port := earlier + Drained(s, run), s.conn.sourcePort;
            var got := StampAll(given, turns, 1);
            && ParseMany(AllTransfers(maxPacketSize, given, turns), |given| + 2)
               == Parsed([VERSION_PACKET, SETUP_PACKET] + got, [])
            && (Reported(Run(s, run).trace) == Carried(got[|earlier|..], port) + Carried(Run(s, run).tx, port)
                <==> WritesAreCompleted(Run(s, run).trace))
  {
    StreamBytesReachTheDevice(s, run, earlier, turns, maxPacketSize);
    WritesAreExactlyOnce(s, run);
  }
}
