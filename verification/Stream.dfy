// `RusbmuxStream` as the object it is: fields updated by poll methods that loop over two
// bounded channels. Each method is proved to do exactly what `StreamSpec` says, so all
// results about runs hold of it.

module Stream {
  import opened Common
  import opened Io
  import opened Packets
  import opened Conn
  import opened StreamSpec
  import S = StreamSpec

  datatype SendResult = Sent | Full | Disconnected
  datatype RecvResult = Item(packet: Packet) | Empty | Closed

  /** This side's view of a bounded channel of packets. */
  class Channel {
    var queue: seq<Packet>
    var open: bool

    constructor ()
      ensures queue == [] && open
    {
      queue, open := [], true;
    }

    method TrySend(p: Packet) returns (r: SendResult)
      modifies this
      ensures open == old(open)
      ensures r == if !open then Disconnected else if |old(queue)| >= CHANNEL_CAPACITY then Full else Sent
      ensures queue == if r.Sent? then old(queue) + [p] else old(queue)
    {
      if !open {
        r := Disconnected;
      } else if |queue| >= CHANNEL_CAPACITY {
        r := Full;
      } else {
        queue := queue + [p];
        r := Sent;
      }
    }

    method TryRecv() returns (r: RecvResult)
      modifies this
      ensures open == old(open)
      ensures r == if old(queue) != [] then Item(old(queue)[0]) else if open then Empty else Closed
      ensures queue == if r.Item? then old(queue)[1..] else []
    {
      if queue != [] {
        r := Item(queue[0]);
        queue := queue[1..];
      } else {
        r := if open then Empty else Closed;
      }
    }
  }

  class RusbmuxStream {
    const conn: UsbDeviceConn
    const rx: Channel
    const tx: Channel
    var readBuf: seq<u8>
    var needAck: bool
    var lastWriteLen: nat
    var writePacket: Option<Packet>

    ghost var origin: seq<u8>
    ghost var builtAt: nat
    ghost var trace: seq<Event>

    ghost predicate Valid() {
      rx != tx
    }

    ghost function View(): StreamState
      reads this, conn, rx, tx
    {
      StreamState(conn.State(), readBuf, needAck, lastWriteLen, writePacket, origin, builtAt,
                  rx.queue, rx.open, tx.queue, tx.open, trace)
    }

    /** The stream `connect` builds from a handshake, a fresh route and the shared writer. */
    constructor (c: UsbDeviceConn, r: Channel, t: Channel, ghost h: Handshake)
      requires r != t
      requires c.State() == InitialConn(c.sourcePort, c.destinationPort, h) && h.sent == h.deviceReceived
      ensures Valid() && Initial(View())
      ensures conn == c && rx == r && tx == t
    {
      conn, rx, tx := c, r, t;
      readBuf, needAck, lastWriteLen, writePacket := [], false, 0, None;
      origin, builtAt, trace := [], 0, [];
    }

    method PollSendFlag(flags: TcpFlags) returns (r: Poll)
      requires Valid()
      modifies this, conn, tx
      ensures (View(), r) == S.PollSendFlag(old(View()), flags)
    {
      var packet := BuildFlag(conn.State(), flags);
      var sent := tx.TrySend(packet);
      match sent {
        case Sent =>
          conn.UpdateSendable();
          needAck := false;
          trace := trace + [Flag(packet)];
          r := Ready(0);
        case Full => r := Pending;
        case Disconnected => r := Failed;
      }
    }

    method PollRecv() returns (r: Poll)
      requires Valid()
      modifies this, conn, rx
      ensures (View(), r) == S.PollRecv(old(View()))
    {
      var item := rx.TryRecv();
      match item {
        case Item(packet) =>
          conn.UpdateStates(packet);
          var payload := EncodePayload(packet.payload);
          if readBuf == [] {
            readBuf := payload;
          } else {
            readBuf := readBuf + payload;
          }
          assert readBuf == old(readBuf) + payload;
          needAck := true;
          trace := trace + [Took(packet)];
          r := Ready(0);
        case Empty => r := Pending;
        case Closed => r := Failed;
      }
    }

    /** Called with `packet` already taken out of `writePacket`. */
    method PollSendPending(packet: Packet, ghost buf: seq<u8>) returns (r: Poll)
      requires Valid() && writePacket == None
      modifies this, conn, tx
      ensures (View(), r) == S.PollSendPending(old(View()).(parked := Some(packet)), buf)
    {
      var payloadLen := PayloadLen(packet.payload);
      var sent := tx.TrySend(packet);
      match sent {
        case Sent =>
          conn.AddSent(payloadLen);
          conn.UpdateSendable();
          var n := lastWriteLen;
          lastWriteLen := 0;
          trace := trace + [Data(packet, buf, origin, builtAt, n)];
          r := Ready(n);
        case Full =>
          writePacket := Some(packet);
          r := Pending;
        case Disconnected => r := Failed;
      }
    }

    /** `poll_read`. The source goes round its loop once more after a copy that left both room
        and data; the assertion shows that this never happens. */
    method PollRead(buf: ReadBuf) returns (r: Poll)
      requires Valid() && buf.Valid()
      modifies this, conn, rx, tx, buf
      ensures Valid() && buf.Valid()
      ensures (View(), r) == S.PollRead(old(View()), old(buf.Remaining()))
      ensures !r.Ready? ==> buf.filled == old(buf.filled)
      ensures r.Ready? ==> trace != [] && trace[|trace| - 1].Gave?
                           && buf.filled == old(buf.filled) + trace[|trace| - 1].bytes
    {
      ghost var room := buf.Remaining();
      while true
        invariant Valid() && buf.Valid() && buf.filled == old(buf.filled)
        invariant S.PollRead(View(), room) == S.PollRead(old(View()), room)
        decreases |rx.queue|, needAck
      {
        if needAck {
          r := PollSendFlag(ACK);
          if !r.Ready? { return; }
        } else if readBuf != [] {
          var n := Min(|readBuf|, buf.Remaining());
          buf.PutSlice(readBuf[..n]);
          trace := trace + [Gave(readBuf[..n])];
          readBuf := readBuf[n..];
          assert buf.Remaining() == 0 || readBuf == [];
          return Ready(n);
        } else {
          r := PollRecv();
          if !r.Ready? { return; }
        }
      }
    }

    method PollWrite(buf: seq<u8>) returns (r: Poll)
      requires Valid()
      modifies this, conn, rx, tx
      ensures Valid()
      ensures (View(), r) == S.PollWrite(old(View()), buf)
    {
      if buf == [] {
        return Ready(0);
      }
      while true
        invariant Valid()
        invariant WriteLoop(View(), buf) == WriteLoop(old(View()), buf)
        decreases |rx.queue|, needAck, writePacket.None?
      {
        if needAck {
          r := PollSendFlag(ACK);
          if !r.Ready? { return; }
        }
        label acked:
        assert WriteLoop(View(), buf) == WriteLoop(old(View()), buf);
        if writePacket.Some? {
          var packet := writePacket.value;
          writePacket := None;
          assert View().(parked := Some(packet)) == old@acked(View());
          r := PollSendPending(packet, buf);
          return;
        } else {
          var sendable := conn.sendable;
          if sendable == 0 {
            r := PollRecv();
            if !r.Ready? { return; }
            continue;
          }
          Park(buf, sendable);
        }
      }
    }

    /** Builds the packet for the sendable prefix of the caller's buffer. */
    method Park(buf: seq<u8>, sendable: nat)
      requires Valid() && sendable == conn.sendable
      modifies this
      ensures Valid() && View() == S.Park(old(View()), buf)
    {
      var n := Min(|buf|, sendable);
      lastWriteLen := n;
      writePacket := Some(BuildBytes(conn.State(), buf[..n]));
      origin, builtAt := buf, |trace|;
    }

    method PollShutdown() returns (r: Poll)
      requires Valid()
      modifies this, conn, tx
      ensures Valid()
      ensures (View(), r) == S.PollShutdown(old(View()))
    {
      if !conn.dropped {
        r := PollSendFlag(RST);
        if !r.Ready? { return; }
        conn.SetDropped();
      }
      r := Ready(0);
    }
  }
}
