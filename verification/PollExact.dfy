// Exactly when a poll is ready, pending or failed, as closed conditions on the state it
// starts in. The conditions count send slots and look for the first useful queued packet;
// the polls themselves loop. Termination is part of the definition of the poll functions.

module PollExact {
  import opened Common
  import opened Io
  import opened Packets
  import opened Conn
  import opened StreamSpec

  function FreeSlots(s: StreamState): nat {
    if |s.tx| >= CHANNEL_CAPACITY then 0 else CHANNEL_CAPACITY - |s.tx|
  }

  function OwedSlots(s: StreamState): nat {
    if s.needAck then 1 else 0
  }

  // ----- reading -----

  /** Number of packets up to and including the first one with a nonempty payload. */
  function FirstPayload(rx: seq<Packet>): (k: Option<nat>)
    ensures k.Some? ==> 1 <= k.value <= |rx| && PayloadLen(rx[k.value - 1].payload) > 0
    ensures k.Some? ==> forall i :: 0 <= i < k.value - 1 ==> PayloadLen(rx[i].payload) == 0
    ensures k.None? ==> forall i :: 0 <= i < |rx| ==> PayloadLen(rx[i].payload) == 0
  {
    if rx == [] then None
    else if PayloadLen(rx[0].payload) > 0 then Some(1)
    else match FirstPayload(rx[1..])
      case None => None
      case Some(k) => Some(k + 1)
  }

  /** ACKs a read has to put on the send channel before it can hand out a byte, if bytes
      are to be had at all. */
  function ReadSlots(s: StreamState): Option<nat> {
    if s.readBuf != [] then Some(OwedSlots(s))
    else match FirstPayload(s.rx)
      case None => None
      case Some(k) => Some(OwedSlots(s) + k)
  }

  predicate ReadReady(s: StreamState) {
    match ReadSlots(s)
    case Some(n) => n == 0 || (s.txOpen && n <= FreeSlots(s))
    case None => false
  }

  predicate ReadPending(s: StreamState) {
    if !s.txOpen then
      !s.needAck && s.readBuf == [] && s.rx == [] && s.rxOpen
    else
      match ReadSlots(s)
      case Some(n) => n > FreeSlots(s)
      case None => s.rxOpen || OwedSlots(s) + |s.rx| > FreeSlots(s)
  }

  lemma {:induction false} ReadOutcome(s: StreamState, room: nat)
    ensures PollRead(s, room).1.Ready? <==> ReadReady(s)
    ensures PollRead(s, room).1.Pending? <==> ReadPending(s)
    decreases |s.rx|, s.needAck
  {
    if s.needAck {
      if PollSendFlag(s, ACK).1.Ready? { ReadOutcome(PollSendFlag(s, ACK).0, room); }
    } else if s.readBuf == [] && s.rx != [] {
      ReadOutcome(PollRecv(s).0, room);
    }
  }

  /** A ready read ends with exactly one copy, as large as buffer and room allow, and with
      room left it is never empty: a stream of empty packets does not look like end of file. */
  lemma {:induction false} ReadyReadDelivers(s: StreamState, room: nat)
    requires PollRead(s, room).1.Ready?
    ensures var (s', r) := PollRead(s, room);
            && s'.trace != [] && s'.trace[|s'.trace| - 1].Gave?
            && var bytes := s'.trace[|s'.trace| - 1].bytes;
            && r.n == |bytes| <= room
            && (room > 0 ==> bytes != [])
            && (|bytes| < room ==> s'.readBuf == [])
    decreases |s.rx|, s.needAck
  {
    if s.needAck {
      ReadyReadDelivers(PollSendFlag(s, ACK).0, room);
    } else if s.readBuf == [] {
      ReadyReadDelivers(PollRecv(s).0, room);
    }
  }

  /** Where a pending read stops: an owed ACK and a full channel, or nothing to deliver and
      nothing to take. Polling again without anyone else acting changes nothing. */
  lemma {:induction false} PendingReadIsBlocked(s: StreamState, room: nat)
    requires PollRead(s, room).1.Pending?
    ensures var s' := PollRead(s, room).0;
            && (if s'.needAck then s'.txOpen && FreeSlots(s') == 0
                else s'.readBuf == [] && s'.rx == [] && s'.rxOpen)
            && PollRead(s', room) == (s', Pending)
    decreases |s.rx|, s.needAck
  {
    if s.needAck {
      if PollSendFlag(s, ACK).1.Ready? { PendingReadIsBlocked(PollSendFlag(s, ACK).0, room); }
    } else if s.rx != [] {
      PendingReadIsBlocked(PollRecv(s).0, room);
    }
  }

  // ----- writing -----

  /** Fewest queued packets after which the device's window has room. */
  function OpensAfter(c: ConnState, rx: seq<Packet>): (k: Option<nat>)
    ensures k.Some? ==> k.value <= |rx|
    decreases |rx|
  {
    if FreshSendable(c) > 0 then Some(0)
    else if rx == [] then None
    else match OpensAfter(AfterPacket(c, rx[0]), rx[1..])
      case None => None
      case Some(k) => Some(k + 1)
  }

  function AfterPackets(c: ConnState, ps: seq<Packet>): ConnState
    decreases |ps|
  {
    if ps == [] then c else AfterPackets(AfterPacket(c, ps[0]), ps[1..])
  }

  /** Slots a write needs: one for each ACK on the way and one for the data packet. */
  function WriteSlots(s: StreamState): Option<nat> {
    if s.parked.Some? then Some(OwedSlots(s) + 1)
    else match OpensAfter(s.conn, s.rx)
      case None => None
      case Some(k) => Some(OwedSlots(s) + k + 1)
  }

  /** The count a ready write reports. */
  function WriteCount(s: StreamState, buf: seq<u8>): nat {
    if s.parked.Some? then s.lastWriteLen
    else match OpensAfter(s.conn, s.rx)
      case None => 0
      case Some(k) => Min(|buf|, FreshSendable(AfterPackets(s.conn, s.rx[..k])))
  }

  predicate WriteReady(s: StreamState) {
    match WriteSlots(s)
    case Some(n) => s.txOpen && n <= FreeSlots(s)
    case None => false
  }

  predicate WritePending(s: StreamState) {
    if !s.txOpen then
      !s.needAck && s.parked.None? && FreshSendable(s.conn) == 0 && s.rx == [] && s.rxOpen
    else
      match WriteSlots(s)
      case Some(n) => n > FreeSlots(s)
      case None => s.rxOpen || OwedSlots(s) + |s.rx| > FreeSlots(s)
  }

  /** The cached count is current unless an ACK is owed (part of the stream's invariant). */
  predicate SendableIsFresh(s: StreamState) {
    !s.needAck ==> s.conn.sendable == FreshSendable(s.conn)
  }

  lemma {:induction false} WriteOutcome(s: StreamState, buf: seq<u8>)
    requires buf != [] && SendableIsFresh(s)
    ensures PollWrite(s, buf).1.Ready? <==> WriteReady(s)
    ensures PollWrite(s, buf).1.Pending? <==> WritePending(s)
    ensures PollWrite(s, buf).1.Ready? ==> PollWrite(s, buf).1.n == WriteCount(s, buf)
    decreases |s.rx|, s.needAck
  {
    if s.needAck {
      if PollSendFlag(s, ACK).1.Ready? {
        AckKeepsOutcome(s, buf);
        WriteOutcome(PollSendFlag(s, ACK).0, buf);
      }
    } else if s.parked.None? && s.conn.sendable == 0 && s.rx != [] {
      ReceiveKeepsOutcome(s, buf);
      WriteOutcome(PollRecv(s).0, buf);
    } else if s.parked.None? && s.conn.sendable > 0 {
      assert s.rx[..0] == [];
    }
  }

  /** Sending the owed ACK uses up one slot and leaves the outcome as it was. */
  lemma AckKeepsOutcome(s: StreamState, buf: seq<u8>)
    requires s.needAck && PollSendFlag(s, ACK).1.Ready?
    ensures var s' := PollSendFlag(s, ACK).0;
            && (WriteReady(s') <==> WriteReady(s))
            && (WritePending(s') <==> WritePending(s))
            && WriteCount(s', buf) == WriteCount(s, buf)
  {
    FreshAfterAck(s, s.rx);
  }

  /** So does taking the first packet while the window is closed. */
  lemma ReceiveKeepsOutcome(s: StreamState, buf: seq<u8>)
    requires !s.needAck && s.parked.None? && s.rx != [] && FreshSendable(s.conn) == 0
    ensures var s' := PollRecv(s).0;
            && (WriteReady(s') <==> WriteReady(s))
            && (WritePending(s') <==> WritePending(s))
            && WriteCount(s', buf) == WriteCount(s, buf)
  {
    var s' := PollRecv(s).0;
    match OpensAfter(s'.conn, s'.rx)
    case Some(k) => assert s.rx[..k + 1][1..] == s'.rx[..k] && s.rx[..k + 1][0] == s.rx[0];
    case None =>
  }

  /** Recomputing the cached count changes nothing the window conditions look at. */
  lemma {:induction false} SameWindow(c: ConnState, d: ConnState, rx: seq<Packet>)
    requires c.sent == d.sent && c.deviceReceived == d.deviceReceived && c.deviceWindow == d.deviceWindow
    ensures OpensAfter(c, rx) == OpensAfter(d, rx)
    ensures FreshSendable(AfterPackets(c, rx)) == FreshSendable(AfterPackets(d, rx))
    decreases |rx|
  {
    if rx != [] { SameWindow(AfterPacket(c, rx[0]), AfterPacket(d, rx[0]), rx[1..]); }
  }

  lemma FreshAfterAck(s: StreamState, rx: seq<Packet>)
    ensures OpensAfter(Refreshed(s.conn), rx) == OpensAfter(s.conn, rx)
    ensures var k := OpensAfter(s.conn, rx);
            k.Some? ==> FreshSendable(AfterPackets(Refreshed(s.conn), rx[..k.value]))
                        == FreshSendable(AfterPackets(s.conn, rx[..k.value]))
  {
    SameWindow(Refreshed(s.conn), s.conn, rx);
    var k := OpensAfter(s.conn, rx);
    if k.Some? { SameWindow(Refreshed(s.conn), s.conn, rx[..k.value]); }
  }

  /** Where a pending write stops: a full channel with an ACK or a parked packet to send, or a
      closed window and nothing to take. Polling again changes nothing. */
  lemma {:induction false} PendingWriteIsBlocked(s: StreamState, buf: seq<u8>)
    requires buf != [] && PollWrite(s, buf).1.Pending?
    ensures var s' := PollWrite(s, buf).0;
            && (if s'.needAck || s'.parked.Some? then s'.txOpen && FreeSlots(s') == 0
                else s'.conn.sendable == 0 && s'.rx == [] && s'.rxOpen)
            && PollWrite(s', buf) == (s', Pending)
    decreases |s.rx|, s.needAck
  {
    if s.needAck {
      if PollSendFlag(s, ACK).1.Ready? { PendingWriteIsBlocked(PollSendFlag(s, ACK).0, buf); }
    } else if s.parked.None? && s.conn.sendable == 0 && s.rx != [] {
      PendingWriteIsBlocked(PollRecv(s).0, buf);
    }
  }
}
