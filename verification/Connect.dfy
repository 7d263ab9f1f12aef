// The daemon's connection loop, client-to-device direction: bytes read from the client are
// cut into chunks no larger than the device's window allows and sent in order.

module Connect {
  import opened Common
  import opened Packets
  import opened Conn

  /** `read` is everything read from the client, `sent` the payload of every data packet sent,
      `total` and `acked` the unbounded byte totals behind the 32-bit counters. */
  datatype DaemonState = DaemonState(
    conn: ConnState,
    readBuf: seq<u8>,
    out: seq<Packet>,
    closed: bool,
    read: seq<u8>,
    sent: seq<u8>,
    total: nat,
    acked: nat)

  /** What one turn of the loop can do. `acked` is the device's true acknowledgment total. */
  datatype Turn =
    | FromClient(incoming: seq<u8>)                // what reading the client yields; [] at its end
    | FromDevice(packet: Packet, acked: nat)       // `recv` completes, including its ACK
    | Cancelled(packet: Packet, acked: nat)        // `recv` took a packet and was dropped before the ACK

  // ----- one turn -----

  /** `client_read`: what is buffered goes first; the client is read only when nothing is. */
  function Buffered(s: DaemonState, incoming: seq<u8>): seq<u8> {
    if s.readBuf != [] then s.readBuf else incoming
  }

  function Chunk(s: DaemonState, incoming: seq<u8>): seq<u8> {
    var b := Buffered(s, incoming);
    b[..Min(s.conn.sendable, |b|)]
  }

  function OnClient(s: DaemonState, incoming: seq<u8>): DaemonState {
    var b, chunk := Buffered(s, incoming), Chunk(s, incoming);
    var read := if s.readBuf != [] then s.read else s.read + incoming;
    if chunk == [] then
      s.(read := read, readBuf := b, closed := true, out := s.out + [BuildFlag(s.conn, RST)],
         conn := s.conn.(dropped := true))
    else
      s.(read := read, readBuf := b[|chunk|..], sent := s.sent + chunk,
         out := s.out + [BuildBytes(s.conn, chunk)],
         conn := Refreshed(AfterSending(s.conn, |chunk|)), total := s.total + |chunk|)
  }

  function Turned(s: DaemonState, t: Turn): DaemonState {
    match t
    case FromClient(incoming) => OnClient(s, incoming)
    case FromDevice(p, acked) =>
      var c := AfterPacket(s.conn, p);
      s.(conn := Refreshed(c), out := s.out + [BuildFlag(c, ACK)], acked := acked)
    case Cancelled(p, acked) => s.(conn := AfterPacket(s.conn, p), acked := acked)
  }

  function Edge(s: DaemonState): nat {
    s.acked + s.conn.deviceWindow * 0x100
  }

  /** The device's acknowledgments move forward and stay within what was sent; its window may do
      anything. */
  ghost predicate HonestNews(s: DaemonState, p: Packet, acked: nat) {
    match p.tcp
    case None => acked == s.acked
    case Some(h) =>
      && acked % 0x1_0000_0000 == h.acknowledgmentNumber
      && s.acked <= acked <= s.total
  }

  ghost predicate Possible(s: DaemonState, t: Turn) {
    && !s.closed
    && match t
       case FromClient(_) => s.conn.sendable > 0
       case FromDevice(p, acked) => HonestNews(s, p, acked)
       case Cancelled(p, acked) => HonestNews(s, p, acked)
  }

  ghost predicate Legal(s: DaemonState, run: seq<Turn>)
    decreases |run|
  {
    run == [] || (Possible(s, run[0]) && Legal(Turned(s, run[0]), run[1..]))
  }

  ghost function Run(s: DaemonState, run: seq<Turn>): DaemonState
    decreases |run|
  {
    if run == [] then s else Run(Turned(s, run[0]), run[1..])
  }

  ghost predicate Initial(s: DaemonState) {
    && s.conn.sent == s.conn.deviceReceived == s.total == s.acked
    && s.conn.sendable == FreshSendable(s.conn)
    && s.readBuf == [] && s.read == [] && s.sent == [] && s.out == [] && !s.closed
  }

  // ----- the invariant -----

  /** The cached sendable count is the one of the current counters. */
  predicate Fresh(s: DaemonState) {
    s.conn.sendable == FreshSendable(s.conn)
  }

  ghost predicate Inv(first: nat, s: DaemonState) {
    && s.read == s.sent + s.readBuf
    && (s.closed ==> s.readBuf == [])
    && s.total == first + |s.sent|
    && s.conn.sent == s.total % 0x1_0000_0000
    && s.conn.deviceReceived == s.acked % 0x1_0000_0000
    && s.acked <= s.total
    && s.total + s.conn.sendable <= s.acked + MAX_WINDOW
    && s.conn.sendable <= MAX_PACKET_PAYLOAD_SIZE
  }

  lemma RefreshIsExact(c: ConnState, total: nat, acked: nat)
    requires c.sent == total % 0x1_0000_0000 && c.deviceReceived == acked % 0x1_0000_0000
    requires acked <= total <= acked + MAX_WINDOW
    ensures Refreshed(c).sendable == RoomLeft(total, acked + c.deviceWindow * 0x100)
    ensures total + Refreshed(c).sendable <= acked + MAX_WINDOW
  {
    SendableIsTheRoomLeft(total, acked, c.deviceWindow);
  }

  lemma SplitAt(sent: seq<u8>, b: seq<u8>, n: nat)
    requires n <= |b|
    ensures sent + b == (sent + b[..n]) + b[n..]
  {
  }

  lemma SendingKeepsInv(first: nat, s: DaemonState, incoming: seq<u8>)
    requires Inv(first, s) && Possible(s, FromClient(incoming)) && Chunk(s, incoming) != []
    ensures Inv(first, OnClient(s, incoming)) && Fresh(OnClient(s, incoming))
  {
    var chunk := Chunk(s, incoming);
    SplitAt(s.sent, Buffered(s, incoming), |chunk|);
    Add32Tracks(s.total, |chunk|);
    RefreshIsExact(AfterSending(s.conn, |chunk|), s.total + |chunk|, s.acked);
  }

  lemma ClosingKeepsInv(first: nat, s: DaemonState, incoming: seq<u8>)
    requires Inv(first, s) && Possible(s, FromClient(incoming)) && Chunk(s, incoming) == []
    ensures Inv(first, OnClient(s, incoming)) && Buffered(s, incoming) == []
  {
  }

  lemma TurnKeepsInv(first: nat, s: DaemonState, t: Turn)
    requires Inv(first, s) && Possible(s, t)
    ensures Inv(first, Turned(s, t))
    ensures !Turned(s, t).closed && !t.Cancelled? ==> Fresh(Turned(s, t))
  {
    match t
    case FromClient(incoming) =>
      if Chunk(s, incoming) == [] {
        ClosingKeepsInv(first, s, incoming);
      } else {
        SendingKeepsInv(first, s, incoming);
      }
    case FromDevice(p, acked) => RefreshIsExact(AfterPacket(s.conn, p), s.total, acked);
    case Cancelled(p, acked) =>
  }

  /** The last turn was a `recv` cancelled between taking its packet and sending the ACK. */
  predicate EndsCancelled(run: seq<Turn>) {
    run != [] && run[|run| - 1].Cancelled?
  }

  lemma {:induction false} RunKeepsInv(first: nat, s: DaemonState, run: seq<Turn>)
    requires Inv(first, s) && Legal(s, run)
    ensures Inv(first, Run(s, run))
    ensures !Run(s, run).closed && run != [] && !EndsCancelled(run) ==> Fresh(Run(s, run))
    decreases |run|
  {
    if run != [] {
      TurnKeepsInv(first, s, run[0]);
      RunKeepsInv(first, Turned(s, run[0]), run[1..]);
    }
  }

  lemma InitialInv(s: DaemonState)
    requires Initial(s)
    ensures Inv(s.total, s) && Fresh(s)
  {
    RefreshIsExact(s.conn, s.total, s.acked);
  }

  /** Conservation: what was read from the client is what was sent to the device followed by what
      is still buffered, and a connection closed at the client's end has nothing buffered. */
  lemma NothingIsCutOff(s: DaemonState, run: seq<Turn>)
    requires Initial(s) && Legal(s, run)
    ensures Run(s, run).read == Run(s, run).sent + Run(s, run).readBuf
    ensures Run(s, run).closed ==> Run(s, run).read == Run(s, run).sent
  {
    InitialInv(s);
    RunKeepsInv(s.total, s, run);
  }

  /** One packet is sent, a reset numbered after everything sent, and the connection is dropped. */
  ghost predicate ClosesWithReset(s: DaemonState, s': DaemonState) {
    && s'.conn == s.conn.(dropped := true)
    && s'.out != [] && s'.out[..|s'.out| - 1] == s.out
    && var p := s'.out[|s'.out| - 1];
    && p.payload == Bytes([]) && p.tcp.Some?
    && p.tcp.value.rst && !p.tcp.value.ack && !p.tcp.value.syn && !p.tcp.value.fin
    && p.tcp.value.sourcePort == s.conn.sourcePort && p.tcp.value.destinationPort == s.conn.destinationPort
    && p.tcp.value.sequenceNumber == s.conn.sent && p.tcp.value.acknowledgmentNumber == s.conn.received
  }

  /** At the end of the client's stream. */
  lemma EndIsReset(first: nat, s: DaemonState, incoming: seq<u8>)
    requires Inv(first, s) && Possible(s, FromClient(incoming)) && Chunk(s, incoming) == []
    ensures var s' := Turned(s, FromClient(incoming));
            s'.closed && s.readBuf == [] && incoming == [] && ClosesWithReset(s, s')
  {
    assert (s.out + [BuildFlag(s.conn, RST)])[..|s.out|] == s.out;
  }

  /** Before it. */
  lemma ChunkIsSent(first: nat, s: DaemonState, incoming: seq<u8>)
    requires Inv(first, s) && Possible(s, FromClient(incoming)) && Chunk(s, incoming) != []
    ensures var chunk, s' := Chunk(s, incoming), Turned(s, FromClient(incoming));
            && !s'.closed && !(s.readBuf == [] && incoming == [])
            && 1 <= |chunk| <= s.conn.sendable
            && chunk + s'.readBuf == (if s.readBuf == [] then incoming else s.readBuf)
            && (s'.readBuf != [] ==> |chunk| == s.conn.sendable)
            && s'.sent == s.sent + chunk
            && s'.out == s.out + [BuildBytes(s.conn, chunk)]
            && s.conn.sent == (first + |s.sent|) % 0x1_0000_0000
  {
    var b, chunk := Buffered(s, incoming), Chunk(s, incoming);
    assert chunk + b[|chunk|..] == b;
  }

  /** Every chunk, after any run: as much as is buffered, or else read, up to the sendable count, and
      carrying the right sequence number. The connection is closed with a reset instead exactly at the
      end of the client's stream with nothing buffered. */
  lemma ChunksAreSentOnce(s: DaemonState, run: seq<Turn>, incoming: seq<u8>)
    requires Initial(s) && Legal(s, run) && Possible(Run(s, run), FromClient(incoming))
    ensures var s1 := Run(s, run);
            var chunk, s2 := Chunk(s1, incoming), Turned(s1, FromClient(incoming));
            && (s2.closed <==> s1.readBuf == [] && incoming == [])
            && (s2.closed ==> ClosesWithReset(s1, s2))
            && (!s2.closed ==>
                  && 1 <= |chunk| <= s1.conn.sendable
                  && chunk + s2.readBuf == (if s1.readBuf == [] then incoming else s1.readBuf)
                  && (s2.readBuf != [] ==> |chunk| == s1.conn.sendable)
                  && s2.sent == s1.sent + chunk
                  && s2.out == s1.out + [BuildBytes(s1.conn, chunk)]
                  && s1.conn.sent == (s.total + |s1.sent|) % 0x1_0000_0000)
  {
    InitialInv(s);
    RunKeepsInv(s.total, s, run);
    if Chunk(Run(s, run), incoming) == [] {
      EndIsReset(s.total, Run(s, run), incoming);
    } else {
      ChunkIsSent(s.total, Run(s, run), incoming);
    }
  }

  // ----- the window -----

  /** No packet of the run moves the right edge of the device's window left. */
  ghost predicate NeverShrinks(s: DaemonState, run: seq<Turn>)
    decreases |run|
  {
    run == []
    || (Edge(s) <= Edge(Turned(s, run[0])) && NeverShrinks(Turned(s, run[0]), run[1..]))
  }

  lemma {:induction false} CountStaysInside(first: nat, s: DaemonState, run: seq<Turn>)
    requires Inv(first, s) && Legal(s, run) && NeverShrinks(s, run)
    requires s.total + s.conn.sendable <= Edge(s)
    ensures Run(s, run).total + Run(s, run).conn.sendable <= Edge(Run(s, run))
    decreases |run|
  {
    if run != [] {
      TurnKeepsInv(first, s, run[0]);
      TurnStaysInside(first, s, run[0]);
      CountStaysInside(first, Turned(s, run[0]), run[1..]);
    }
  }

  lemma TurnStaysInside(first: nat, s: DaemonState, t: Turn)
    requires Inv(first, s) && Possible(s, t) && Edge(s) <= Edge(Turned(s, t))
    requires s.total + s.conn.sendable <= Edge(s)
    ensures Turned(s, t).total + Turned(s, t).conn.sendable <= Edge(Turned(s, t))
  {
    var s' := Turned(s, t);
    TurnKeepsInv(first, s, t);
    if Fresh(s') { RefreshIsExact(s'.conn, s'.total, s'.acked); }
  }

  /** The window, exactly, after any run and whatever windows the device announces: the next chunk
      ends inside the window in force if and only if the connection's 32-bit fields say so. */
  lemma ChunkFitsExactly(s: DaemonState, run: seq<Turn>, incoming: seq<u8>)
    requires Initial(s) && Legal(s, run) && Possible(Run(s, run), FromClient(incoming))
    ensures var s1 := Run(s, run);
            var chunk := Chunk(s1, incoming);
            s1.total + |chunk| <= Edge(s1)
            <==> Sub32(s1.conn.sent, s1.conn.deviceReceived) + |chunk| <= s1.conn.deviceWindow * 0x100
  {
    InitialInv(s);
    RunKeepsInv(s.total, s, run);
    Sub32Exact(Run(s, run).total, Run(s, run).acked);
  }

  /** A chunk overruns the window only directly after a cancelled `recv`, and only if the device
      shrank its window: the code refreshes the cached count after every completed turn. */
  lemma ChunksFitTheWindow(s: DaemonState, run: seq<Turn>, incoming: seq<u8>)
    requires Initial(s) && Legal(s, run) && Possible(Run(s, run), FromClient(incoming))
    requires !EndsCancelled(run) || NeverShrinks(s, run)
    ensures Run(s, run).total + |Chunk(Run(s, run), incoming)| <= Edge(Run(s, run))
  {
    InitialInv(s);
    RunKeepsInv(s.total, s, run);
    var s1 := Run(s, run);
    RefreshIsExact(s.conn, s.total, s.acked);
    if EndsCancelled(run) {
      CountStaysInside(s.total, s, run);
    } else {
      RefreshIsExact(s1.conn, s1.total, s1.acked);
    }
  }

  function JustConnected(): DaemonState {
    DaemonState(ConnState(2, 62078, 1, 1, 0x100, 1, 1, false), [], [], false, [], [], 1, 1)
  }

  /** A `recv` cancelled on a packet that closes the window leaves the cached count behind, and the
      next chunk goes out all the same. */
  lemma CancelledRecvCanOverrun(data: u8)
    ensures var closing := BuildTcp(BuildTcpHeader(62078, 2, 1, 1, ACK).(windowSize := 0), []);
            var run := [Cancelled(closing, 1)];
            && Initial(JustConnected()) && Legal(JustConnected(), run)
            && Possible(Run(JustConnected(), run), FromClient([data]))
            && Run(JustConnected(), run).total + |Chunk(Run(JustConnected(), run), [data])|
               > Edge(Run(JustConnected(), run))
  {
    var closing := BuildTcp(BuildTcpHeader(62078, 2, 1, 1, ACK).(windowSize := 0), []);
    var run := [Cancelled(closing, 1)];
    var s1 := Turned(JustConnected(), run[0]);
    assert run[1..] == [];
    assert Run(JustConnected(), run) == Run(s1, []) == s1;
    assert Chunk(s1, [data]) == [data];
  }

  /** A completed `recv` answers with an ACK for exactly the packet it returns, numbered after
      everything sent so far. */
  lemma ReceivedPacketsAreAcked(s: DaemonState, run: seq<Turn>, p: Packet, acked: nat)
    requires Initial(s) && Legal(s, run) && Possible(Run(s, run), FromDevice(p, acked)) && p.tcp.Some?
    ensures var s1 := Run(s, run);
            var s2 := Turned(s1, FromDevice(p, acked));
            |s2.out| == |s1.out| + 1
            && var ack := s2.out[|s1.out|];
            && ack.payload == Bytes([]) && ack.tcp.Some?
            && ack.tcp.value.ack && !ack.tcp.value.rst && !ack.tcp.value.syn && !ack.tcp.value.fin
            && ack.tcp.value.acknowledgmentNumber == Add32(p.tcp.value.sequenceNumber, |EncodePayload(p.payload)|)
            && ack.tcp.value.sequenceNumber == (s.total + |s1.sent|) % 0x1_0000_0000
  {
    InitialInv(s);
    RunKeepsInv(s.total, s, run);
  }

  // ----- the loop as code -----

  class DaemonConnection {
    const conn: UsbDeviceConn
    var readBuf: seq<u8>
    var out: seq<Packet>
    var toClient: seq<u8>
    var closed: bool

    ghost var read: seq<u8>
    ghost var sent: seq<u8>
    ghost var total: nat
    ghost var acked: nat

    ghost function View(): DaemonState
      reads this, conn
    {
      DaemonState(conn.State(), readBuf, out, closed, read, sent, total, acked)
    }

    constructor (c: UsbDeviceConn, ghost h: Handshake)
      requires c.State() == InitialConn(c.sourcePort, c.destinationPort, h) && h.sent == h.deviceReceived
      ensures Initial(View()) && conn == c && toClient == []
    {
      conn := c;
      readBuf, out, toClient, closed := [], [], [], false;
      read, sent, total, acked := [], [], h.sent, h.sent;
    }

    /** `client_read`; `incoming` is what the socket yields if it is read at all. */
    method ClientRead(incoming: seq<u8>, sendableBytes: nat) returns (chunk: seq<u8>)
      modifies this`readBuf, this`read
      ensures var b := if old(readBuf) != [] then old(readBuf) else incoming;
              chunk == b[..Min(sendableBytes, |b|)] && readBuf == b[|chunk|..]
      ensures read == if old(readBuf) != [] then old(read) else old(read) + incoming
    {
      if readBuf != [] {
        var n := Min(sendableBytes, |readBuf|);
        chunk := readBuf[..n];
        readBuf := readBuf[n..];
        return;
      }
      readBuf := readBuf + incoming;
      read := read + incoming;
      var n := Min(sendableBytes, |readBuf|);
      chunk := readBuf[..n];
      readBuf := readBuf[n..];
      assert old(readBuf) + incoming == incoming;
    }

    method OnClient(incoming: seq<u8>)
      requires Possible(View(), FromClient(incoming))
      modifies this, conn
      ensures View() == Turned(old(View()), FromClient(incoming))
      ensures toClient == old(toClient)
    {
      var chunk := ClientRead(incoming, conn.sendable);
      if chunk == [] {
        out := out + [BuildFlag(conn.State(), RST)];
        conn.SetDropped();
        closed := true;
        return;
      }
      var packet := BuildBytes(conn.State(), chunk);
      out := out + [packet];
      conn.AddSent(PayloadLen(packet.payload));
      conn.UpdateSendable();
      sent := sent + chunk;
      total := total + |chunk|;
    }

    /** `recv` is dropped after it took the packet and before it sent the ACK: neither the ACK nor
        the payload goes anywhere, and the cached count stays as it was. */
    method OnCancelledRecv(p: Packet, ghost newAcked: nat)
      requires Possible(View(), Cancelled(p, newAcked))
      modifies this, conn
      ensures View() == Turned(old(View()), Cancelled(p, newAcked))
      ensures toClient == old(toClient)
    {
      conn.UpdateStates(p);
      acked := newAcked;
    }

    method OnDevicePacket(p: Packet, ghost newAcked: nat)
      requires Possible(View(), FromDevice(p, newAcked))
      modifies this, conn
      ensures View() == Turned(old(View()), FromDevice(p, newAcked))
      ensures toClient == old(toClient) + EncodePayload(p.payload)
    {
      conn.UpdateStates(p);
      out := out + [BuildFlag(conn.State(), ACK)];
      conn.UpdateSendable();
      acked := newAcked;
      toClient := toClient + EncodePayload(p.payload);
    }
  }
}
