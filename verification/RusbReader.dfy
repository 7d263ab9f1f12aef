// `RusbAsyncReader`: bulk-in transfers buffered until they are read.

module RusbReader {
  import opened Common
  import opened Io

  /** What polling the transfer in flight yields. */
  datatype Transfer = NotYet | Completed(status: int, data: seq<u8>) | Dropped

  /** `delivered` concatenates everything copied into readers' buffers. */
  datatype ReaderState = ReaderState(
    buffer: seq<u8>,
    pos: nat,
    pending: bool,
    delivered: seq<u8>)

  /** One poll: the room in the reader's buffer, whether a transfer could be submitted if one
      was needed, and what the transfer in flight yields if it is polled. */
  datatype PollInput = PollInput(room: nat, submits: bool, transfer: Transfer)

  function ChunkToBuf(s: ReaderState, chunk: seq<u8>, room: nat): ReaderState {
    var n := Min(|chunk|, room);
    var s' := s.(delivered := s.delivered + chunk[..n], pending := false);
    if n < |chunk| then s'.(buffer := chunk, pos := n) else s'.(buffer := [], pos := 0)
  }

  /** Completion of a transfer; a failed status is noticed only when `checked`. */
  function Completes(s: ReaderState, t: Transfer, room: nat, checked: bool): (ReaderState, Poll)
  {
    match t
    case NotYet => (s, Pending)
    case Dropped => (s.(pending := false), Failed)
    case Completed(status, data) =>
      if checked && status != 0 then (s.(pending := false), Failed)
      else (ChunkToBuf(s, data, room), Ready(Min(|data|, room)))
  }

  function Polled(s: ReaderState, i: PollInput): (ReaderState, Poll)
    requires s.pos <= |s.buffer|
  {
    if s.pos < |s.buffer| then
      var n := Min(|s.buffer| - s.pos, i.room);
      var s' := s.(delivered := s.delivered + s.buffer[s.pos..s.pos + n]);
      (if s.pos + n == |s.buffer| then s'.(buffer := [], pos := 0) else s'.(pos := s.pos + n), Ready(n))
    else if s.pending then Completes(s, i.transfer, i.room, true)
    else if !i.submits then (s, Failed)
    else Completes(s.(pending := true), i.transfer, i.room, false)
  }

  // ----- what the transfers bring -----

  ghost predicate Inv(s: ReaderState) {
    s.pos <= |s.buffer| && (s.buffer != [] ==> s.pos < |s.buffer|)
  }

  ghost predicate Initial(s: ReaderState) {
    s.buffer == [] && s.pos == 0 && !s.pending && s.delivered == []
  }

  function Unread(s: ReaderState): seq<u8>
    requires s.pos <= |s.buffer|
  {
    s.buffer[s.pos..]
  }

  /** The transfer whose completion this poll takes, given how much is unread and whether one is in
      flight: only with nothing unread, with a transfer in flight or submitted now, and, for one that
      was in flight before, with status 0. */
  function Arriving(unread: nat, inFlight: bool, i: PollInput): Option<seq<u8>> {
    if unread == 0 && (inFlight || i.submits) && i.transfer.Completed? && (inFlight ==> i.transfer.status == 0)
    then Some(i.transfer.data)
    else None
  }

  function Bytes(data: Option<seq<u8>>): seq<u8> {
    if data.Some? then data.value else []
  }

  /** A transfer is in flight after the poll: the old one if it was not looked at, or one that has
      not completed. */
  predicate InFlightAfter(unread: nat, inFlight: bool, i: PollInput) {
    if unread > 0 then inFlight else (inFlight || i.submits) && i.transfer.NotYet?
  }

  /** What a poll does: it appends what arrives to what is unread, and if there is anything to answer
      with, copies as much of that as there is room for. */
  ghost predicate PollEffect(s: ReaderState, i: PollInput, s': ReaderState, r: Poll)
    requires Inv(s)
  {
    var arriving := Arriving(|Unread(s)|, s.pending, i);
    var available := Unread(s) + Bytes(arriving);
    var n := Min(|available|, i.room);
    && Inv(s')
    && (r.Ready? <==> Unread(s) != [] || arriving.Some?)
    && (r.Ready? ==> r.n == n && s'.delivered == s.delivered + available[..n] && Unread(s') == available[n..])
    && (!r.Ready? ==> s'.delivered == s.delivered && Unread(s') == available == [])
    && (r.Pending? <==> Unread(s) == [] && (s.pending || i.submits) && i.transfer.NotYet?)
    && s'.pending == InFlightAfter(|Unread(s)|, s.pending, i)
  }

  lemma CompletesHasEffect(s: ReaderState, i: PollInput)
    requires Inv(s) && s.buffer == [] && (s.pending || i.submits)
    ensures PollEffect(s, i, Completes(s.(pending := true), i.transfer, i.room, s.pending).0,
                       Completes(s.(pending := true), i.transfer, i.room, s.pending).1)
  {
    if i.transfer.Completed? {
      assert Unread(s) + i.transfer.data == i.transfer.data;
    }
  }

  lemma CopyHasEffect(s: ReaderState, i: PollInput)
    requires Inv(s) && s.pos < |s.buffer|
    ensures PollEffect(s, i, Polled(s, i).0, Polled(s, i).1)
  {
    var n := Min(|s.buffer| - s.pos, i.room);
    assert Unread(s) + [] == Unread(s);
    assert Unread(s)[..n] == s.buffer[s.pos..s.pos + n] && Unread(s)[n..] == s.buffer[s.pos + n..];
  }

  /** One poll, whatever the transfer in flight yields. */
  lemma PollsAppendAndCopy(s: ReaderState, i: PollInput)
    requires Inv(s)
    ensures PollEffect(s, i, Polled(s, i).0, Polled(s, i).1)
  {
    if s.pos < |s.buffer| {
      CopyHasEffect(s, i);
    } else if s.pending || i.submits {
      CompletesHasEffect(s, i);
      assert s.pending ==> s.(pending := true) == s;
    }
  }

  ghost function Polls(s: ReaderState, inputs: seq<PollInput>): ReaderState
    requires Inv(s)
    decreases |inputs|
  {
    if inputs == [] then s
    else
      PollsAppendAndCopy(s, inputs[0]);
      Polls(Polled(s, inputs[0]).0, inputs[1..])
  }

  /** The data of the transfers taken over a series of polls, from the inputs alone: all that matters
      of the reader is how many bytes are unread and whether a transfer is in flight. */
  function Taken(unread: nat, inFlight: bool, inputs: seq<PollInput>): seq<u8>
    decreases |inputs|
  {
    if inputs == [] then []
    else
      var data := Bytes(Arriving(unread, inFlight, inputs[0]));
      var total := unread + |data|;
      data + Taken(total - Min(total, inputs[0].room), InFlightAfter(unread, inFlight, inputs[0]), inputs[1..])
  }

  lemma Split(delivered: seq<u8>, available: seq<u8>, n: nat, more: seq<u8>)
    requires n <= |available|
    ensures (delivered + available[..n]) + (available[n..] + more) == delivered + (available + more)
  {
    assert available == available[..n] + available[n..];
  }

  /** One poll conserves bytes. */
  lemma PollConservesBytes(s: ReaderState, i: PollInput)
    requires Inv(s)
    ensures var s' := Polled(s, i).0;
            && Inv(s')
            && s'.delivered + Unread(s') == s.delivered + (Unread(s) + Bytes(Arriving(|Unread(s)|, s.pending, i)))
            && (var total := |Unread(s)| + |Bytes(Arriving(|Unread(s)|, s.pending, i))|;
                |Unread(s')| == total - Min(total, i.room))
            && s'.pending == InFlightAfter(|Unread(s)|, s.pending, i)
  {
    PollsAppendAndCopy(s, i);
    var (s', r) := Polled(s, i);
    var available := Unread(s) + Bytes(Arriving(|Unread(s)|, s.pending, i));
    if r.Ready? {
      Split(s.delivered, available, Min(|available|, i.room), []);
      assert Unread(s') + [] == Unread(s') && available + [] == available;
    }
  }

  lemma Chain(a: seq<u8>, b: seq<u8>, c: seq<u8>, d: seq<u8>)
    ensures (a + (b + c)) + d == (a + b) + (c + d)
  {
  }

  /** Read conservation, over any series of polls and any transfer outcomes: what has been delivered
      followed by what is unread is what was there at first followed by the data of all transfers
      taken, in order. */
  lemma {:induction false} ReadsConserveBytes(s: ReaderState, inputs: seq<PollInput>)
    requires Inv(s)
    ensures Inv(Polls(s, inputs))
    ensures Polls(s, inputs).delivered + Unread(Polls(s, inputs))
         == s.delivered + Unread(s) + Taken(|Unread(s)|, s.pending, inputs)
    decreases |inputs|
  {
    if inputs == [] {
      assert s.delivered + Unread(s) + [] == s.delivered + Unread(s);
    } else {
      var i, s' := inputs[0], Polled(s, inputs[0]).0;
      PollConservesBytes(s, i);
      ReadsConserveBytes(s', inputs[1..]);
      Chain(s.delivered, Unread(s), Bytes(Arriving(|Unread(s)|, s.pending, i)),
            Taken(|Unread(s')|, s'.pending, inputs[1..]));
    }
  }

  predicate CompletesEmpty(t: Transfer, checked: bool) {
    t.Completed? && |t.data| == 0 && (checked ==> t.status == 0)
  }

  lemma EmptyCompletion(s: ReaderState, t: Transfer, room: nat, checked: bool)
    requires room > 0
    ensures Completes(s, t, room, checked).1 == Ready(0) <==> CompletesEmpty(t, checked)
  {
  }

  /** A ready poll with room that copies nothing, which a reader takes for the end of the
      stream, happens exactly when a zero-length transfer completes with nothing buffered. */
  lemma EmptyReadsExactly(s: ReaderState, i: PollInput)
    requires Inv(s) && i.room > 0
    ensures Polled(s, i).1 == Ready(0)
       <==> |s.buffer| == 0 && (s.pending || i.submits) && CompletesEmpty(i.transfer, s.pending)
  {
    if s.pos == |s.buffer| {
      EmptyCompletion(if s.pending then s else s.(pending := true), i.transfer, i.room, s.pending);
    }
  }

  // ----- the object -----

  class RusbAsyncReader {
    var buffer: seq<u8>
    var pos: nat
    var pending: bool

    ghost var delivered: seq<u8>

    ghost function View(): ReaderState
      reads this
    {
      ReaderState(buffer, pos, pending, delivered)
    }

    ghost predicate Valid()
      reads this
    {
      Inv(View())
    }

    constructor ()
      ensures Valid() && Initial(View())
    {
      buffer, pos, pending, delivered := [], 0, false, [];
    }

    method ChunkToBuffer(chunk: seq<u8>, buf: ReadBuf)
      requires buf.Valid()
      modifies this, buf
      ensures buf.Valid()
      ensures View() == ChunkToBuf(old(View()), chunk, old(buf.Remaining()))
      ensures buf.filled == old(buf.filled) + chunk[..Min(|chunk|, old(buf.Remaining()))]
    {
      var toCopy := Min(|chunk|, buf.Remaining());
      buf.PutSlice(chunk[..toCopy]);
      delivered := delivered + chunk[..toCopy];
      if toCopy < |chunk| {
        buffer, pos := chunk, toCopy;
      } else {
        buffer, pos := [], 0;
      }
      pending := false;
    }

    method PollTransfer(t: Transfer, checked: bool, buf: ReadBuf) returns (r: Poll)
      requires buf.Valid()
      modifies this, buf
      ensures buf.Valid()
      ensures (View(), r) == Completes(old(View()), t, old(buf.Remaining()), checked)
      ensures old(delivered) <= delivered && buf.filled == old(buf.filled) + delivered[|old(delivered)|..]
    {
      match t {
        case NotYet =>
          r := Pending;
        case Dropped =>
          pending := false;
          r := Failed;
        case Completed(status, data) =>
          if checked && status != 0 {
            pending := false;
            return Failed;
          }
          r := Ready(Min(|data|, buf.Remaining()));
          ChunkToBuffer(data, buf);
      }
    }

    method CopyBuffered(buf: ReadBuf) returns (r: Poll)
      requires pos < |buffer| && buf.Valid()
      modifies this, buf
      ensures buf.Valid()
      ensures forall i: PollInput :: i.room == old(buf.Remaining()) ==> (View(), r) == Polled(old(View()), i)
      ensures old(delivered) <= delivered && buf.filled == old(buf.filled) + delivered[|old(delivered)|..]
    {
      var toCopy := Min(|buffer| - pos, buf.Remaining());
      buf.PutSlice(buffer[pos..pos + toCopy]);
      delivered := delivered + buffer[pos..pos + toCopy];
      pos := pos + toCopy;
      if pos == |buffer| {
        buffer, pos := [], 0;
      }
      r := Ready(toCopy);
    }

    method PollRead(buf: ReadBuf, submits: bool, transfer: Transfer) returns (r: Poll)
      requires Valid() && buf.Valid()
      modifies this, buf
      ensures Valid() && buf.Valid()
      ensures (View(), r) == Polled(old(View()), PollInput(old(buf.Remaining()), submits, transfer))
      ensures old(delivered) <= delivered && buf.filled == old(buf.filled) + delivered[|old(delivered)|..]
    {
      ghost var before, input := View(), PollInput(buf.Remaining(), submits, transfer);
      assert Inv(Polled(before, input).0) by { PollsAppendAndCopy(before, input); }
      if pos < |buffer| {
        r := CopyBuffered(buf);
        return;
      }
      if pending {
        r := PollTransfer(transfer, true, buf);
        return;
      }
      if !submits {
        return Failed;
      }
      pending := true;
      assert View() == before.(pending := true);
      r := PollTransfer(transfer, false, buf);
    }
  }
}
