// `RusbmuxStream` as a state machine over values: what each poll function does to the
// connection, the two bounded channels and the stream's own fields, together with a
// chronological trace of everything the stream took, sent and handed out.

module StreamSpec {
  import opened Common
  import opened Io
  import opened Packets
  import opened Conn

  const CHANNEL_CAPACITY: nat := 256

  datatype Event =
    | Took(packet: Packet)       // taken from the receive channel
    | Flag(packet: Packet)       // a bare ACK or RST put on the send channel
    | Data(packet: Packet,       // a data packet put on the send channel by a poll_write
           buf: seq<u8>,         //   the buffer given to the poll_write that completed
           origin: seq<u8>,      //   the buffer given to the poll_write that built it
           builtAt: nat,         //   how many events preceded the building
           written: nat)         //   the count the completing poll_write returned
    | Gave(bytes: seq<u8>)       // bytes copied into a reader's buffer

  datatype StreamState = StreamState(
    conn: ConnState,
    readBuf: seq<u8>,
    needAck: bool,
    lastWriteLen: nat,
    parked: Option<Packet>,      // `write_packet`
    origin: seq<u8>,             // the caller's buffer when `parked` was built
    builtAt: nat,                // the length of `trace` then
    rx: seq<Packet>,
    rxOpen: bool,
    tx: seq<Packet>,
    txOpen: bool,
    trace: seq<Event>)

  // ----- the three helpers of the stream -----

  function PollSendFlag(s: StreamState, flags: TcpFlags): (StreamState, Poll) {
    if !s.txOpen then (s, Failed)
    else if |s.tx| >= CHANNEL_CAPACITY then (s, Pending)
    else
      var p := BuildFlag(s.conn, flags);
      (s.(tx := s.tx + [p], conn := Refreshed(s.conn), needAck := false, trace := s.trace + [Flag(p)]), Ready(0))
  }

  function PollRecv(s: StreamState): (StreamState, Poll) {
    if s.rx != [] then
      var p := s.rx[0];
      (s.(rx := s.rx[1..], conn := AfterPacket(s.conn, p), readBuf := s.readBuf + EncodePayload(p.payload),
          needAck := true, trace := s.trace + [Took(p)]), Ready(0))
    else if s.rxOpen then (s, Pending)
    else (s, Failed)
  }

  /** `write_packet.take()` followed by `poll_send_pending`; `buf` is the caller's buffer. */
  function PollSendPending(s: StreamState, buf: seq<u8>): (StreamState, Poll)
    requires s.parked.Some?
  {
    var p := s.parked.value;
    if !s.txOpen then (s.(parked := None), Failed)
    else if |s.tx| >= CHANNEL_CAPACITY then (s, Pending)
    else
      (s.(tx := s.tx + [p], parked := None, lastWriteLen := 0,
          conn := Refreshed(AfterSending(s.conn, PayloadLen(p.payload))),
          trace := s.trace + [Data(p, buf, s.origin, s.builtAt, s.lastWriteLen)]),
       Ready(s.lastWriteLen))
  }

  /** One copy out of `read_buf` into a buffer with `room` bytes left. */
  function Give(s: StreamState, room: nat): StreamState {
    var n := Min(|s.readBuf|, room);
    s.(readBuf := s.readBuf[n..], trace := s.trace + [Gave(s.readBuf[..n])])
  }

  /** Building the packet for the sendable prefix of the caller's buffer. */
  function Park(s: StreamState, buf: seq<u8>): StreamState {
    var n := Min(|buf|, s.conn.sendable);
    s.(lastWriteLen := n, parked := Some(BuildBytes(s.conn, buf[..n])), origin := buf, builtAt := |s.trace|)
  }

  // ----- the poll functions -----

  function PollRead(s: StreamState, room: nat): (StreamState, Poll)
    decreases |s.rx|, s.needAck
  {
    if s.needAck then
      var (s', r) := PollSendFlag(s, ACK);
      if r.Ready? then PollRead(s', room) else (s', r)
    else if s.readBuf != [] then
      (Give(s, room), Ready(Min(|s.readBuf|, room)))
    else
      var (s', r) := PollRecv(s);
      if r.Ready? then PollRead(s', room) else (s', r)
  }

  function PollWrite(s: StreamState, buf: seq<u8>): (StreamState, Poll) {
    if buf == [] then (s, Ready(0)) else WriteLoop(s, buf)
  }

  function WriteLoop(s: StreamState, buf: seq<u8>): (StreamState, Poll)
    decreases |s.rx|, s.needAck
  {
    if s.needAck then
      var (s', r) := PollSendFlag(s, ACK);
      if r.Ready? then WriteLoop(s', buf) else (s', r)
    else if s.parked.Some? then
      PollSendPending(s, buf)
    else if s.conn.sendable == 0 then
      var (s', r) := PollRecv(s);
      if r.Ready? then WriteLoop(s', buf) else (s', r)
    else
      PollSendPending(Park(s, buf), buf)
  }

  function PollShutdown(s: StreamState): (StreamState, Poll) {
    if s.conn.dropped then (s, Ready(0))
    else
      var (s', r) := PollSendFlag(s, RST);
      if r.Ready? then (s'.(conn := s'.conn.(dropped := true)), Ready(0)) else (s', r)
  }

  // ----- single steps, of the stream and of everyone else -----

  /** The atomic actions. The first five are the stream's own, each doing at most one channel
      operation; the rest belong to the reader loop, the writer loop and other connections,
      and may come between any two of them, also in the middle of a poll. */
  datatype Step =
    | SendAck
    | Receive
    | Deliver(room: nat)
    | Build(buf: seq<u8>)
    | Flush(buf: seq<u8>)
    | Shutdown
    | Arrive(packet: Packet)     // the reader loop routes a packet to this connection
    | Drain                      // the writer loop takes the oldest queued packet
    | OtherSend(packet: Packet)  // another sender of the shared writer channel
    | RxClose
    | TxClose

  /** When the code can be about to perform the step. */
  predicate Enabled(s: StreamState, a: Step) {
    match a
    case SendAck => s.needAck
    case Receive => !s.needAck && (s.readBuf == [] || (s.parked.None? && s.conn.sendable == 0))
    case Deliver(_) => !s.needAck && s.readBuf != []
    case Build(buf) => !s.needAck && s.parked.None? && s.conn.sendable != 0 && buf != []
    case Flush(buf) => !s.needAck && s.parked.Some? && buf != []
    case Shutdown => !s.conn.dropped
    case Arrive(_) => s.rxOpen && |s.rx| < CHANNEL_CAPACITY
    case Drain => s.tx != []
    case OtherSend(_) => s.txOpen && |s.tx| < CHANNEL_CAPACITY
    case RxClose => true
    case TxClose => true
  }

  function Apply(s: StreamState, a: Step): StreamState
    requires Enabled(s, a)
  {
    match a
    case SendAck => PollSendFlag(s, ACK).0
    case Receive => PollRecv(s).0
    case Deliver(room) => Give(s, room)
    case Build(buf) => Park(s, buf)
    case Flush(buf) => PollSendPending(s, buf).0
    case Shutdown => PollShutdown(s).0
    case Arrive(p) => s.(rx := s.rx + [p])
    case Drain => s.(tx := s.tx[1..])
    case OtherSend(p) => s.(tx := s.tx + [p])
    case RxClose => s.(rxOpen := false)
    case TxClose => s.(txOpen := false)
  }

  /** A run: every step is enabled where it happens. */
  ghost predicate Legal(s: StreamState, run: seq<Step>)
    decreases |run|
  {
    run == [] || (Enabled(s, run[0]) && Legal(Apply(s, run[0]), run[1..]))
  }

  ghost function Run(s: StreamState, run: seq<Step>): StreamState
    requires Legal(s, run)
    decreases |run|
  {
    if run == [] then s else Run(Apply(s, run[0]), run[1..])
  }

  lemma {:induction false} RunConcat(s: StreamState, a: seq<Step>, b: seq<Step>)
    requires Legal(s, a) && Legal(Run(s, a), b)
    ensures Legal(s, a + b) && Run(s, a + b) == Run(Run(s, a), b)
    decreases |a|
  {
    if a == [] {
      assert a + b == b;
    } else {
      var s' := Apply(s, a[0]);
      RunConcat(s', a[1..], b);
      assert (a + b)[0] == a[0] && (a + b)[1..] == a[1..] + b;
    }
  }

  lemma TwoSteps(s: StreamState, a: Step, b: Step)
    requires Enabled(s, a) && Enabled(Apply(s, a), b)
    ensures Legal(s, [a, b]) && Run(s, [a, b]) == Apply(Apply(s, a), b)
  {
    var run := [a, b];
    assert run[1..] == [b] && run[1..][1..] == [];
    assert Run(Apply(s, a), run[1..]) == Run(Apply(Apply(s, a), b), run[1..][1..]);
  }

  /** The stream as `connect` hands it out, right after the handshake. */
  ghost predicate Initial(s: StreamState) {
    && s.conn.sendable == FreshSendable(s.conn)
    && s.conn.sent == s.conn.deviceReceived
    && !s.conn.dropped
    && s.readBuf == [] && !s.needAck && s.parked.None? && s.trace == []
  }

  // ----- every poll is a run of single steps -----

  lemma {:induction false} PollReadIsARun(s: StreamState, room: nat) returns (run: seq<Step>)
    ensures Legal(s, run) && Run(s, run) == PollRead(s, room).0
    ensures forall a :: a in run ==> a.SendAck? || a.Receive? || a == Deliver(room)
    decreases |s.rx|, s.needAck
  {
    var a := if s.needAck then SendAck else if s.readBuf != [] then Deliver(room) else Receive;
    var s' := Apply(s, a);
    var rest := [];
    if (s.needAck && PollSendFlag(s, ACK).1.Ready?) || (!s.needAck && s.readBuf == [] && s.rx != []) {
      rest := PollReadIsARun(s', room);
    }
    run := [a] + rest;
    assert run[1..] == rest;
  }

  lemma {:induction false} PollWriteIsARun(s: StreamState, buf: seq<u8>) returns (run: seq<Step>)
    ensures Legal(s, run) && Run(s, run) == PollWrite(s, buf).0
    ensures forall a :: a in run ==> a.SendAck? || a.Receive? || a == Build(buf) || a == Flush(buf)
  {
    if buf == [] { run := []; } else { run := WriteLoopIsARun(s, buf); }
  }

  lemma {:induction false} WriteLoopIsARun(s: StreamState, buf: seq<u8>) returns (run: seq<Step>)
    requires buf != []
    ensures Legal(s, run) && Run(s, run) == WriteLoop(s, buf).0
    ensures forall a :: a in run ==> a.SendAck? || a.Receive? || a == Build(buf) || a == Flush(buf)
    decreases |s.rx|, s.needAck
  {
    var rest := [];
    if s.needAck {
      if PollSendFlag(s, ACK).1.Ready? { rest := WriteLoopIsARun(Apply(s, SendAck), buf); }
      run := [SendAck] + rest;
      assert run[1..] == rest;
    } else if s.parked.Some? {
      run := [Flush(buf)];
    } else if s.conn.sendable == 0 {
      if s.rx != [] { rest := WriteLoopIsARun(Apply(s, Receive), buf); }
      run := [Receive] + rest;
      assert run[1..] == rest;
    } else {
      run := [Build(buf), Flush(buf)];
      var s' := Apply(s, Build(buf));
      assert run[1..] == [Flush(buf)];
      assert [Flush(buf)][1..] == [];
      assert Run(s', [Flush(buf)]) == Run(Apply(s', Flush(buf)), []) == Apply(s', Flush(buf));
    }
  }
}
