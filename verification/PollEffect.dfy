// What one poll does to the two channels and to the stream: which packets it takes and sends,
// which bytes it copies, and what it leaves behind, for every outcome.

module PollEffect {
  import opened Common
  import opened Io
  import opened Packets
  import opened Conn
  import opened StreamSpec
  import opened StreamInvariant

  // ----- events and channels -----

  /** From `s` to `s'` exactly `news` happened: what was sent is now at the end of the send channel,
      what was taken is gone from the front of the receive channel. */
  ghost predicate Moves(s: StreamState, s': StreamState, news: seq<Event>) {
    && s'.trace == s.trace + news
    && s'.tx == s.tx + SentPackets(news)
    && s.rx == TakenPackets(news) + s'.rx
    && s'.txOpen == s.txOpen && s'.rxOpen == s.rxOpen
  }

  /** What may come before the one copy or the one data packet of a poll. */
  ghost predicate OnlyTakesAndAcks(news: seq<Event>) {
    forall e :: e in news ==> e.Took? || (e.Flag? && IsAck(e.packet) && e.packet.payload == Bytes([]))
  }

  function PacketsBy(e: Event): seq<Packet> {
    if e.Flag? || e.Data? then [e.packet] else []
  }

  function TakenBy(e: Event): seq<Packet> {
    if e.Took? then [e.packet] else []
  }

  function BytesBy(e: Event): seq<u8> {
    if e.Took? then EncodePayload(e.packet.payload) else []
  }

  lemma TotalsSnoc(tr: seq<Event>, e: Event)
    ensures SentPackets(tr + [e]) == SentPackets(tr) + PacketsBy(e)
    ensures TakenPackets(tr + [e]) == TakenPackets(tr) + TakenBy(e)
    ensures Received(tr + [e]) == Received(tr) + BytesBy(e)
  {
    Snoc(tr, e);
  }

  lemma Regroup<T>(a: seq<T>, b: seq<T>, c: seq<T>)
    ensures (a + b) + c == a + (b + c)
  {
  }

  lemma {:induction false} TotalsAppend(a: seq<Event>, b: seq<Event>)
    ensures SentPackets(a + b) == SentPackets(a) + SentPackets(b)
    ensures TakenPackets(a + b) == TakenPackets(a) + TakenPackets(b)
    ensures Received(a + b) == Received(a) + Received(b)
    decreases |b|
  {
    if b == [] {
      assert a + b == a;
    } else {
      TotalsAppend(a, Front(b));
      assert a + b == (a + Front(b)) + [Last(b)] && b == Front(b) + [Last(b)];
      TotalsSnoc(a + Front(b), Last(b));
      TotalsSnoc(Front(b), Last(b));
      Regroup(SentPackets(a), SentPackets(Front(b)), PacketsBy(Last(b)));
      Regroup(TakenPackets(a), TakenPackets(Front(b)), TakenBy(Last(b)));
      Regroup(Received(a), Received(Front(b)), BytesBy(Last(b)));
    }
  }

  lemma OneEvent(e: Event)
    ensures SentPackets([e]) == if e.Flag? || e.Data? then [e.packet] else []
    ensures TakenPackets([e]) == if e.Took? then [e.packet] else []
    ensures Received([e]) == if e.Took? then EncodePayload(e.packet.payload) else []
  {
    assert Front([e]) == [] && Last([e]) == e;
  }

  lemma MovesThen(s: StreamState, s1: StreamState, s2: StreamState, a: seq<Event>, b: seq<Event>)
    requires Moves(s, s1, a) && Moves(s1, s2, b)
    ensures Moves(s, s2, a + b)
  {
    TotalsAppend(a, b);
    assert s.trace + (a + b) == (s.trace + a) + b;
    assert s.tx + (SentPackets(a) + SentPackets(b)) == (s.tx + SentPackets(a)) + SentPackets(b);
    assert TakenPackets(a) + (TakenPackets(b) + s2.rx) == (TakenPackets(a) + TakenPackets(b)) + s2.rx;
  }

  lemma MovesThenLast(s: StreamState, s1: StreamState, s2: StreamState, e: Event, later: seq<Event>, last: Event)
    requires Moves(s, s1, [e]) && Moves(s1, s2, later + [last])
    ensures Moves(s, s2, [e] + later + [last])
  {
    MovesThen(s, s1, s2, [e], later + [last]);
    Regroup([e], later, [last]);
  }

  lemma FlagMoves(s: StreamState, flags: TcpFlags)
    requires PollSendFlag(s, flags).1.Ready?
    ensures Moves(s, PollSendFlag(s, flags).0, [Flag(BuildFlag(s.conn, flags))])
  {
    OneEvent(Flag(BuildFlag(s.conn, flags)));
  }

  lemma RecvMoves(s: StreamState)
    requires s.rx != []
    ensures Moves(s, PollRecv(s).0, [Took(s.rx[0])]) && Received([Took(s.rx[0])]) == EncodePayload(s.rx[0].payload)
  {
    OneEvent(Took(s.rx[0]));
  }

  lemma NothingMoves(s: StreamState)
    ensures Moves(s, s, []) && Received([]) == []
  {
  }

  // ----- reading -----

  /** The effect of a read poll: first packets are taken and acknowledged; if it is ready, one copy
      follows, of as many of the bytes now buffered as the reader has room for. */
  ghost predicate ReadEffect(s: StreamState, room: nat, s': StreamState, r: Poll, news: seq<Event>) {
    var buffered := s.readBuf + Received(news);
    var n := Min(|buffered|, room);
    && OnlyTakesAndAcks(news)
    && (if r.Ready? then
          Moves(s, s', news + [Gave(buffered[..n])]) && s'.readBuf == buffered[n..] && r.n == n
        else
          Moves(s, s', news) && s'.readBuf == buffered)
    && s'.parked == s.parked && s'.conn.sent == s.conn.sent
  }

  lemma GaveMoves(s: StreamState, room: nat)
    requires !s.needAck && s.readBuf != []
    ensures ReadEffect(s, room, Give(s, room), Ready(Min(|s.readBuf|, room)), [])
  {
    var n := Min(|s.readBuf|, room);
    OneEvent(Gave(s.readBuf[..n]));
    assert s.readBuf + Received([]) == s.readBuf;
    assert [] + [Gave(s.readBuf[..n])] == [Gave(s.readBuf[..n])];
  }

  /** An event before the copy is a packet taken or an ACK sent, and buffers what it brings. */
  ghost predicate Precedes(s: StreamState, s1: StreamState, e: Event) {
    && Moves(s, s1, [e])
    && (e.Took? || (e.Flag? && IsAck(e.packet) && e.packet.payload == Bytes([])))
    && s1.readBuf == s.readBuf + Received([e])
    && s1.parked == s.parked && s1.conn.sent == s.conn.sent
  }

  lemma BufferedLater(s: StreamState, s1: StreamState, e: Event, later: seq<Event>)
    requires Precedes(s, s1, e)
    ensures s1.readBuf + Received(later) == s.readBuf + Received([e] + later)
  {
    TotalsAppend([e], later);
  }

  lemma ReadAfter(s: StreamState, room: nat, s1: StreamState, e: Event, s': StreamState, r: Poll, later: seq<Event>)
    requires Precedes(s, s1, e) && ReadEffect(s1, room, s', r, later)
    ensures ReadEffect(s, room, s', r, [e] + later)
  {
    BufferedLater(s, s1, e, later);
    if r.Ready? {
      var buffered := s1.readBuf + Received(later);
      MovesThenLast(s, s1, s', e, later, Gave(buffered[..Min(|buffered|, room)]));
    } else {
      MovesThen(s, s1, s', [e], later);
    }
  }

  lemma AckPrecedes(s: StreamState)
    requires s.needAck && PollSendFlag(s, ACK).1.Ready?
    ensures Precedes(s, PollSendFlag(s, ACK).0, Flag(BuildFlag(s.conn, ACK)))
  {
    FlagMoves(s, ACK);
    OneEvent(Flag(BuildFlag(s.conn, ACK)));
  }

  lemma TakePrecedes(s: StreamState)
    requires s.rx != []
    ensures Precedes(s, PollRecv(s).0, Took(s.rx[0]))
  {
    RecvMoves(s);
  }

  /** Every read poll, whatever its outcome. */
  lemma {:induction false} ReadsTakeThenCopy(s: StreamState, room: nat) returns (news: seq<Event>)
    ensures ReadEffect(s, room, PollRead(s, room).0, PollRead(s, room).1, news)
    decreases |s.rx|, s.needAck
  {
    NothingMoves(s);
    assert s.readBuf + [] == s.readBuf;
    news := [];
    if s.needAck {
      if PollSendFlag(s, ACK).1.Ready? {
        var s1, e := PollSendFlag(s, ACK).0, Flag(BuildFlag(s.conn, ACK));
        AckPrecedes(s);
        var later := ReadsTakeThenCopy(s1, room);
        ReadAfter(s, room, s1, e, PollRead(s1, room).0, PollRead(s1, room).1, later);
        news := [e] + later;
      }
    } else if s.readBuf != [] {
      GaveMoves(s, room);
    } else if s.rx != [] {
      var s1, e := PollRecv(s).0, Took(s.rx[0]);
      TakePrecedes(s);
      var later := ReadsTakeThenCopy(s1, room);
      ReadAfter(s, room, s1, e, PollRead(s1, room).0, PollRead(s1, room).1, later);
      news := [e] + later;
    }
  }

  // ----- writing -----

  /** The count of a parked packet is its length (part of the stream's invariant). */
  predicate ParkedCounted(s: StreamState) {
    s.parked.Some? ==> PayloadLen(s.parked.value.payload) == s.lastWriteLen
  }

  /** The data packet a ready write sends: the parked one if there is one, else one made of the first
      `n` bytes of the caller's buffer. */
  ghost predicate IsNextPacket(s: StreamState, buf: seq<u8>, p: Packet, n: nat) {
    && PayloadLen(p.payload) == n
    && (if s.parked.Some? then p == s.parked.value else 0 < n <= |buf| && p.payload == Bytes(buf[..n]))
  }

  /** The effect of a write poll: first packets are taken and acknowledged; if it is ready, exactly
      one data packet is put on the channel, last, and counted as sent. */
  ghost predicate WriteEffect(s: StreamState, buf: seq<u8>, s': StreamState, r: Poll, news: seq<Event>) {
    && OnlyTakesAndAcks(news)
    && s'.readBuf == s.readBuf + Received(news)
    && (if r.Ready? then
          && s'.trace != [] && var e := Last(s'.trace);
          && e.Data? && e.buf == buf && e.written == r.n
          && IsNextPacket(s, buf, e.packet, r.n)
          && Moves(s, s', news + [e])
          && s'.parked.None? && s'.conn.sent == Add32(s.conn.sent, r.n)
        else
          && Moves(s, s', news) && s'.conn.sent == s.conn.sent
          && (r.Pending? ==> s'.parked == s.parked || (s.parked.None? && s'.parked.Some?
                             && IsNextPacket(s, buf, s'.parked.value, s'.lastWriteLen)))
          && (r.Failed? ==> s'.parked == if s'.needAck then s.parked else None))
  }

  lemma SendMoves(s: StreamState, buf: seq<u8>, s0: StreamState)
    requires s0.parked.Some? && IsNextPacket(s, buf, s0.parked.value, s0.lastWriteLen)
    requires s0 == s.(parked := s0.parked, lastWriteLen := s0.lastWriteLen, origin := s0.origin, builtAt := s0.builtAt)
    requires !s.needAck && (s.parked.Some? ==> s0.parked == s.parked)
    ensures WriteEffect(s, buf, PollSendPending(s0, buf).0, PollSendPending(s0, buf).1, [])
  {
    NothingMoves(s);
    assert s.readBuf + [] == s.readBuf;
    var (s', r) := PollSendPending(s0, buf);
    if r.Ready? {
      var e := Data(s0.parked.value, buf, s0.origin, s0.builtAt, s0.lastWriteLen);
      OneEvent(e);
      assert s'.trace == s.trace + [e] && Last(s'.trace) == e;
      assert [] + [e] == [e];
    }
  }

  lemma WriteAfter(s: StreamState, buf: seq<u8>, s1: StreamState, e: Event, s': StreamState, r: Poll, later: seq<Event>)
    requires Precedes(s, s1, e) && WriteEffect(s1, buf, s', r, later)
    ensures WriteEffect(s, buf, s', r, [e] + later)
  {
    BufferedLater(s, s1, e, later);
    if r.Ready? {
      MovesThenLast(s, s1, s', e, later, Last(s'.trace));
    } else {
      MovesThen(s, s1, s', [e], later);
    }
  }

  /** A write that takes and acknowledges nothing. */
  lemma WriteAtOnce(s: StreamState, buf: seq<u8>)
    requires buf != [] && ParkedCounted(s)
    requires s.needAck ==> !PollSendFlag(s, ACK).1.Ready?
    requires !s.needAck && s.parked.None? && s.conn.sendable == 0 ==> s.rx == []
    ensures WriteEffect(s, buf, WriteLoop(s, buf).0, WriteLoop(s, buf).1, [])
  {
    NothingMoves(s);
    assert s.readBuf + [] == s.readBuf;
    if !s.needAck {
      if s.parked.Some? {
        SendMoves(s, buf, s);
      } else if s.conn.sendable > 0 {
        SendMoves(s, buf, Park(s, buf));
      }
    }
  }

  lemma {:induction false} WriteLoopEffect(s: StreamState, buf: seq<u8>) returns (news: seq<Event>)
    requires buf != [] && ParkedCounted(s)
    ensures WriteEffect(s, buf, WriteLoop(s, buf).0, WriteLoop(s, buf).1, news)
    decreases |s.rx|, s.needAck
  {
    if s.needAck && PollSendFlag(s, ACK).1.Ready? {
      var s1, e := PollSendFlag(s, ACK).0, Flag(BuildFlag(s.conn, ACK));
      AckPrecedes(s);
      var later := WriteLoopEffect(s1, buf);
      WriteAfter(s, buf, s1, e, WriteLoop(s1, buf).0, WriteLoop(s1, buf).1, later);
      news := [e] + later;
    } else if !s.needAck && s.parked.None? && s.conn.sendable == 0 && s.rx != [] {
      var s1, e := PollRecv(s).0, Took(s.rx[0]);
      TakePrecedes(s);
      var later := WriteLoopEffect(s1, buf);
      WriteAfter(s, buf, s1, e, WriteLoop(s1, buf).0, WriteLoop(s1, buf).1, later);
      news := [e] + later;
    } else {
      WriteAtOnce(s, buf);
      news := [];
    }
  }

  /** Every write poll, whatever its outcome; an empty write does nothing. */
  lemma WritesSendOnePacket(s: StreamState, buf: seq<u8>) returns (news: seq<Event>)
    requires ParkedCounted(s)
    ensures buf != [] ==> WriteEffect(s, buf, PollWrite(s, buf).0, PollWrite(s, buf).1, news)
    ensures buf == [] ==> PollWrite(s, buf) == (s, Ready(0))
  {
    news := [];
    if buf != [] { news := WriteLoopEffect(s, buf); }
  }

  // ----- shutting down -----

  /** A ready shutdown has put exactly one reset on the channel and marked the connection dropped,
      unless it was dropped before; a shutdown that is not ready has done nothing. */
  lemma ShutdownResetsOnce(s: StreamState)
    ensures var (s', r) := PollShutdown(s);
            && (r.Ready? <==> s.conn.dropped || (s.txOpen && |s.tx| < CHANNEL_CAPACITY))
            && (r.Failed? <==> !s.conn.dropped && !s.txOpen)
            && (r.Ready? ==> s'.conn.dropped)
            && (s.conn.dropped || !r.Ready? ==> s' == s)
            && (!s.conn.dropped && r.Ready? ==>
                  && s'.tx != [] && var p := s'.tx[|s'.tx| - 1];
                  && Moves(s, s', [Flag(p)])
                  && IsBareReset(p) && p.payload == Bytes([])
                  && p.tcp.value.sourcePort == s.conn.sourcePort
                  && p.tcp.value.destinationPort == s.conn.destinationPort
                  && p.tcp.value.sequenceNumber == s.conn.sent
                  && p.tcp.value.acknowledgmentNumber == s.conn.received)
  {
    if !s.conn.dropped && PollSendFlag(s, RST).1.Ready? {
      FlagMoves(s, RST);
    }
  }
}
