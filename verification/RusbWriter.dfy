// `RusbAsyncWriter`: writes gathered in a buffer and submitted as one bulk transfer per frame,
// with a zero-length packet to end a transfer that fills its last packet; and the writer loop's
// frames on their way through it.

module RusbWriter {
  import opened Common
  import opened Packets
  import opened Codec
  import opened Framing
  import opened Conn
  import opened StreamSpec
  import opened StreamInvariant

  const AUTO_FLUSH_AT: nat := MAX_PACKET_SIZE * 2

  /** `bulk` is every bulk transfer made, in order; [] is a zero-length packet. */
  datatype WriterState = WriterState(
    maxPacketSize: nat,
    buffer: seq<u8>,
    transferLen: nat,
    pending: bool,
    bulk: seq<seq<u8>>)

  /** What polling the transfer in flight yields, if there is one. */
  datatype InFlight = Running | Finished(status: int) | Gone

  datatype WriteResult = Accepted(n: nat) | Busy | Failed

  /** `poll_write`; `submits` says whether an automatic flush could be submitted. */
  function Gather(s: WriterState, bytes: seq<u8>, inFlight: InFlight, submits: bool): (WriterState, WriteResult) {
    if s.pending then
      match inFlight
      case Running => (s, Busy)
      case Finished(status) => (s, if status != 0 then Failed else Busy)
      case Gone => (s.(pending := false), Failed)
    else if bytes == [] then (s, Accepted(0))
    else
      var all := s.buffer + bytes;
      if |all| < AUTO_FLUSH_AT then (s.(buffer := all), Accepted(|bytes|))
      else if !submits then (s.(buffer := []), Failed)
      else (s.(buffer := [], transferLen := s.transferLen + |bytes|, pending := true, bulk := s.bulk + [all]), Busy)
  }

  /** `flush().await` with its transfer succeeding: wait for the transfer in flight, or else submit
      what is buffered and wait for that. */
  function Flushed(s: WriterState): WriterState {
    if s.pending then s.(pending := false)
    else if s.buffer == [] then s
    else s.(buffer := [], transferLen := s.transferLen + |s.buffer|, bulk := s.bulk + [s.buffer])
  }

  predicate NeedsZlp(len: nat, maxPacketSize: nat) {
    len > 0 && maxPacketSize > 0 && len % maxPacketSize == 0
  }

  /** `submit_end`: flush, then a zero-length packet if the transfer length calls for one. */
  function SubmitEnd(s: WriterState): WriterState {
    var s1 := if s.buffer == [] then s
              else s.(buffer := [], transferLen := s.transferLen + |s.buffer|, bulk := s.bulk + [s.buffer]);
    s1.(bulk := s1.bulk + (if NeedsZlp(s1.transferLen, s.maxPacketSize) then [[]] else []), transferLen := 0)
  }

  // ----- frames -----

  /** A frame as the writer loop writes it: headers, then payload. */
  datatype Frame = Frame(headers: seq<u8>, payload: seq<u8>)

  predicate FrameFits(f: Frame) {
    0 < |f.headers| <= V2_SIZE + TCP_MIN_LEN && |f.payload| <= MAX_PACKET_PAYLOAD_SIZE
  }

  /** A write the writer accepts whole. */
  function Gathered(s: WriterState, bytes: seq<u8>): WriterState {
    s.(buffer := s.buffer + bytes)
  }

  /** The two `write_all` calls and `submit_end`. */
  function WriteFrame(s: WriterState, f: Frame): WriterState {
    SubmitEnd(Gathered(Gathered(s, f.headers), f.payload))
  }

  ghost predicate Idle(s: WriterState) {
    s.buffer == [] && !s.pending
  }

  /** A frame bounded like every frame of a stream is accepted whole, whatever the endpoint does,
      never triggers the automatic flush, and leaves as one transfer; the zero-length packet after it
      depends on the frame's length plus whatever was left in the transfer counter. */
  lemma FrameIsOneTransfer(s: WriterState, f: Frame, inFlight: InFlight, submits: bool)
    requires Idle(s) && FrameFits(f)
    ensures Gather(s, f.headers, inFlight, submits) == (Gathered(s, f.headers), Accepted(|f.headers|))
    ensures Gather(Gathered(s, f.headers), f.payload, inFlight, submits)
         == (Gathered(Gathered(s, f.headers), f.payload), Accepted(|f.payload|))
    ensures var s' := WriteFrame(s, f);
            && Idle(s') && s'.transferLen == 0 && s'.maxPacketSize == s.maxPacketSize
            && s'.bulk == s.bulk + [f.headers + f.payload]
                          + (if NeedsZlp(s.transferLen + |f.headers + f.payload|, s.maxPacketSize) then [[]] else [])
  {
    assert [] + f.headers == f.headers && f.headers + [] == f.headers;
  }

  /** The transfers a list of frames should make, if `carried` bytes are already counted. */
  function Transfers(frames: seq<Frame>, carried: nat, maxPacketSize: nat): seq<seq<u8>> {
    if frames == [] then []
    else
      var bytes := frames[0].headers + frames[0].payload;
      [bytes] + (if NeedsZlp(carried + |bytes|, maxPacketSize) then [[]] else [])
      + Transfers(frames[1..], 0, maxPacketSize)
  }

  function WriteFrames(s: WriterState, frames: seq<Frame>): WriterState
    decreases |frames|
  {
    if frames == [] then s else WriteFrames(WriteFrame(s, frames[0]), frames[1..])
  }

  lemma TransfersAfter(bulk: seq<seq<u8>>, frames: seq<Frame>, carried: nat, m: nat)
    requires frames != []
    ensures var bytes := frames[0].headers + frames[0].payload;
            bulk + Transfers(frames, carried, m)
            == bulk + [bytes] + (if NeedsZlp(carried + |bytes|, m) then [[]] else []) + Transfers(frames[1..], 0, m)
  {
  }

  lemma {:induction false} FramesAreTransfers(s: WriterState, frames: seq<Frame>)
    requires Idle(s) && forall f :: f in frames ==> FrameFits(f)
    ensures WriteFrames(s, frames).bulk == s.bulk + Transfers(frames, s.transferLen, s.maxPacketSize)
    ensures Idle(WriteFrames(s, frames))
    decreases |frames|
  {
    if frames != [] {
      FrameIsOneTransfer(s, frames[0], Running, true);
      FramesAreTransfers(WriteFrame(s, frames[0]), frames[1..]);
      TransfersAfter(s.bulk, frames, s.transferLen, s.maxPacketSize);
    }
  }

  // ----- no byte is lost in any branch -----

  /** Everything given to the endpoint or still gathered. */
  function WriterBytes(s: WriterState): seq<u8> {
    Concat(s.bulk) + s.buffer
  }

  /** `poll_write` in every branch: the bytes are gathered, or with those gathered before submitted when
      they reach the threshold; only a submission that fails loses them; while a transfer is in flight
      nothing is taken. */
  lemma WritesKeepBytes(s: WriterState, bytes: seq<u8>, inFlight: InFlight, submits: bool)
    ensures var (s', r) := Gather(s, bytes, inFlight, submits);
            && (r.Accepted? ==> !s.pending && r.n == |bytes| && s'.bulk == s.bulk && !s'.pending)
            && (s.pending ==> s' == s.(pending := s'.pending) && (s'.pending <==> !inFlight.Gone?))
            && (s.pending ==> (r.Failed? <==> inFlight.Gone? || (inFlight.Finished? && inFlight.status != 0)))
            && (!s.pending && !r.Failed? ==> WriterBytes(s') == WriterBytes(s) + bytes)
            && (!s.pending && r.Busy? ==> submits && s'.pending && s'.buffer == [])
            && (!s.pending && r.Busy? ==> s'.transferLen == s.transferLen + |bytes|)
            && (!s.pending && r.Failed? ==> !submits && s'.bulk == s.bulk && s'.buffer == [] && !s'.pending)
            && (!s.pending ==> (r.Accepted? <==> bytes == [] || |s.buffer| + |bytes| < AUTO_FLUSH_AT))
  {
    assert s.buffer + [] == s.buffer;
    if !s.pending {
      var all := s.buffer + bytes;
      ConcatOne(s.bulk, all);
      assert Concat(s.bulk) + all == Concat(s.bulk) + s.buffer + bytes;
    }
  }

  lemma ConcatOne(bulk: seq<seq<u8>>, last: seq<u8>)
    ensures Concat(bulk + [last]) == Concat(bulk) + last
  {
    ConcatAppend(bulk, [last]);
    assert [last][1..] == [];
  }

  lemma SubmittingKeepsBytes(bulk: seq<seq<u8>>, buffer: seq<u8>)
    ensures Concat(bulk + [buffer]) + [] == Concat(bulk) + buffer
  {
    ConcatOne(bulk, buffer);
  }

  /** Flushing submits what is gathered, unless a transfer is in flight. */
  lemma FlushKeepsBytes(s: WriterState)
    ensures WriterBytes(Flushed(s)) == WriterBytes(s) && !Flushed(s).pending
    ensures !s.pending ==> Flushed(s).buffer == []
  {
    SubmittingKeepsBytes(s.bulk, s.buffer);
  }

  /** Ending a transfer submits what is gathered, and clears the counter. */
  lemma EndKeepsBytes(s: WriterState)
    ensures WriterBytes(SubmitEnd(s)) == WriterBytes(s)
    ensures SubmitEnd(s).buffer == [] && SubmitEnd(s).transferLen == 0 && SubmitEnd(s).pending == s.pending
  {
    var bulk := if s.buffer == [] then s.bulk else s.bulk + [s.buffer];
    assert Concat(bulk) + [] == WriterBytes(s) by {
      SubmittingKeepsBytes(s.bulk, s.buffer);
    }
    SubmittingKeepsBytes(bulk, []);
    assert bulk + [] == bulk;
  }

  // ----- the writer loop's frames -----

  function FrameOf(p: Packet): Frame {
    Frame(WriterHeaders(p), EncodePayload(p.payload))
  }

  function FramesOf(ps: seq<Packet>): seq<Frame> {
    if ps == [] then [] else [FrameOf(ps[0])] + FramesOf(ps[1..])
  }

  lemma {:induction false} FramesFit(ps: seq<Packet>)
    requires forall p :: p in ps ==> PayloadLen(p.payload) <= MAX_PACKET_PAYLOAD_SIZE
    ensures |FramesOf(ps)| == |ps|
    ensures forall f :: f in FramesOf(ps) ==> FrameFits(f)
  {
    if ps != [] {
      assert ps[0] in ps && FrameFits(FrameOf(ps[0]));
      FramesFit(ps[1..]);
    }
  }

  lemma StampedFramesFit(ps: seq<Packet>, turns: seq<Turn>, sendSeq: u16)
    requires |ps| <= |turns|
    requires forall p :: p in ps ==> PayloadLen(p.payload) <= MAX_PACKET_PAYLOAD_SIZE
    ensures |FramesOf(StampAll(ps, turns, sendSeq))| == |ps|
    ensures forall f :: f in FramesOf(StampAll(ps, turns, sendSeq)) ==> FrameFits(f)
  {
    var out := StampAll(ps, turns, sendSeq);
    forall i | 0 <= i < |ps| ensures PayloadLen(out[i].payload) <= MAX_PACKET_PAYLOAD_SIZE {
      assert ps[i] in ps;
      StampAllAt(ps, turns, sendSeq, i);
    }
    FramesFit(out);
  }

  /** The bound is met by everything a stream sends: on any run, each packet it enqueues, under
      whatever numbers the writer loop stamps it with, makes a frame the writer accepts whole, and
      the frame is what the writer loop writes. */
  lemma StreamFramesFit(s: StreamState, run: seq<Step>, i: nat, sendSeq: u16, recvSeq: u16)
    requires Initial(s) && Legal(s, run) && i < |Run(s, run).trace|
    requires Run(s, run).trace[i].Data? || Run(s, run).trace[i].Flag?
    ensures var p := Stamp(Run(s, run).trace[i].packet, sendSeq, recvSeq);
            FrameFits(FrameOf(p)) && FrameOf(p).headers + FrameOf(p).payload == WriterFrame(p)
  {
    InvOnEveryRun(s, run);
    var tr := Run(s, run).trace;
    assert EventOk(s.conn, tr[..i], tr[i]);
  }

  function Concat(chunks: seq<seq<u8>>): seq<u8> {
    if chunks == [] then [] else chunks[0] + Concat(chunks[1..])
  }

  lemma {:induction false} ConcatAppend(a: seq<seq<u8>>, b: seq<seq<u8>>)
    ensures Concat(a + b) == Concat(a) + Concat(b)
  {
    if a == [] {
      assert a + b == b;
    } else {
      assert (a + b)[1..] == a[1..] + b;
      ConcatAppend(a[1..], b);
    }
  }

  /** One turn of the loop as transfers: zero-length packets carry no bytes. */
  lemma TransfersStep(f: Frame, rest: seq<Frame>, carried: nat, maxPacketSize: nat)
    ensures Concat(Transfers([f] + rest, carried, maxPacketSize))
         == f.headers + f.payload + Concat(Transfers(rest, 0, maxPacketSize))
  {
    var zlp: seq<seq<u8>> :=
      if NeedsZlp(carried + |f.headers + f.payload|, maxPacketSize) then [[]] else [];
    var tail := Transfers(rest, 0, maxPacketSize);
    assert ([f] + rest)[1..] == rest;
    assert Transfers([f] + rest, carried, maxPacketSize) == [f.headers + f.payload] + (zlp + tail);
    ConcatAppend([f.headers + f.payload], zlp + tail);
    ConcatAppend(zlp, tail);
    assert [f.headers + f.payload][1..] == [];
    assert Concat(zlp) == [];
  }

  lemma {:induction false} TransfersAreTheOutput(
    ps: seq<Packet>, turns: seq<Turn>, i: nat, sendSeq: u16, carried: nat, maxPacketSize: nat)
    requires i <= |ps| <= |turns| && AllWrote(turns)
    ensures Concat(Transfers(FramesOf(StampAll(ps[i..], turns[i..], sendSeq)), carried, maxPacketSize))
         == OutputFrom(ps, turns, i, sendSeq)
    decreases |ps| - i
  {
    if i < |ps| {
      var next := NextSeq(ps[i], sendSeq);
      var p := Stamp(ps[i], sendSeq, turns[i].recvSeq);
      assert ps[i..][1..] == ps[i + 1..] && turns[i..][1..] == turns[i + 1..] && turns[i] in turns;
      var rest := StampAll(ps[i + 1..], turns[i + 1..], next);
      assert StampAll(ps[i..], turns[i..], sendSeq) == [p] + rest;
      assert FramesOf([p] + rest) == [FrameOf(p)] + FramesOf(rest) by { assert ([p] + rest)[1..] == rest; }
      TransfersStep(FrameOf(p), FramesOf(rest), carried, maxPacketSize);
      TransfersAreTheOutput(ps, turns, i + 1, next, 0, maxPacketSize);
    }
  }

  /** The bulk transfers the writer makes of the loop's packets carry, concatenated, exactly what the
      loop put on the pipe; zero-length packets add nothing. */
  lemma TransfersCarryThePipe(s: WriterState, ps: seq<Packet>, turns: seq<Turn>, sendSeq: u16)
    requires Idle(s) && |ps| <= |turns| && AllWrote(turns)
    requires forall p :: p in ps ==> PayloadLen(p.payload) <= MAX_PACKET_PAYLOAD_SIZE
    ensures Concat(WriteFrames(s, FramesOf(StampAll(ps, turns, sendSeq))).bulk)
         == Concat(s.bulk) + OutputFrom(ps, turns, 0, sendSeq)
  {
    var frames := FramesOf(StampAll(ps, turns, sendSeq));
    StampedFramesFit(ps, turns, sendSeq);
    FramesAreTransfers(s, frames);
    ConcatAppend(s.bulk, Transfers(frames, s.transferLen, s.maxPacketSize));
    assert ps[0..] == ps && turns[0..] == turns;
    TransfersAreTheOutput(ps, turns, 0, sendSeq, s.transferLen, s.maxPacketSize);
  }

  // ----- the device's start-up writes -----

  const VERSION_PACKET: Packet := BuildVersion(2, 0)
  const SETUP_PACKET: Packet := BuildSetup([7])

  function AfterWriteAndFlush(s: WriterState, bytes: seq<u8>): WriterState {
    Flushed(Gather(s, bytes, Running, true).0)
  }

  /** The version packet and the setup packet, each written and flushed; neither ends its transfer
      with `submit_end`. */
  function AfterSetup(maxPacketSize: nat): WriterState {
    var unused := WriterState(maxPacketSize, [], 0, false, []);
    AfterWriteAndFlush(AfterWriteAndFlush(unused, Encode(VERSION_PACKET)), Encode(SETUP_PACKET))
  }

  lemma SetupTransfers(maxPacketSize: nat)
    ensures var s := AfterSetup(maxPacketSize);
            && Idle(s) && s.maxPacketSize == maxPacketSize
            && s.bulk == [Encode(VERSION_PACKET), Encode(SETUP_PACKET)]
            && VERSION_PACKET.payload == Version(2, 0, 0) && SETUP_PACKET.payload == Bytes([7])
            && s.transferLen == |Encode(VERSION_PACKET)| + |Encode(SETUP_PACKET)| == 37
  {
    var unused := WriterState(maxPacketSize, [], 0, false, []);
    var version, setup := Encode(VERSION_PACKET), Encode(SETUP_PACKET);
    assert |version| == 20 && |setup| == 17;
    assert [] + version == version && [] + setup == setup;
    assert AfterWriteAndFlush(unused, version) == unused.(transferLen := 20, bulk := [version]);
  }

  /** Transfer boundaries, for any frames the writer loop can be given: one transfer per frame;
      from the second frame on a zero-length packet follows exactly a frame whose length is a
      multiple of the packet size, while the first frame still counts the 37 setup bytes. */
  lemma TransferBoundaries(maxPacketSize: nat, frames: seq<Frame>)
    requires forall f :: f in frames ==> FrameFits(f)
    ensures WriteFrames(AfterSetup(maxPacketSize), frames).bulk
         == [Encode(VERSION_PACKET), Encode(SETUP_PACKET)] + Transfers(frames, 37, maxPacketSize)
  {
    SetupTransfers(maxPacketSize);
    FramesAreTransfers(AfterSetup(maxPacketSize), frames);
  }

  lemma EncodeAllCons(p: Packet, ps: seq<Packet>)
    ensures EncodeAll([p] + ps) == Encode(p) + EncodeAll(ps)
  {
    assert ([p] + ps)[1..] == ps;
  }

  lemma ConcatPair(a: seq<u8>, b: seq<u8>, rest: seq<u8>)
    ensures Concat([a, b]) + rest == a + (b + rest)
  {
    var pair: seq<seq<u8>> := [a, b];
    assert pair[1..] == [b] && pair[1..][1..] == [];
    assert Concat(pair[1..]) == b + [] == b;
  }

  lemma EncodeAllPair(a: Packet, b: Packet, ps: seq<Packet>)
    ensures EncodeAll([a, b] + ps) == Concat([Encode(a), Encode(b)]) + EncodeAll(ps)
  {
    assert [a, b] + ps == [a] + ([b] + ps);
    EncodeAllCons(a, [b] + ps);
    EncodeAllCons(b, ps);
    ConcatPair(Encode(a), Encode(b), EncodeAll(ps));
  }

  /** The bytes of all transfers are the encodings of all packets. */
  lemma TransfersAreEncodings(maxPacketSize: nat, ps: seq<Packet>, turns: seq<Turn>)
    requires |ps| <= |turns| && AllWrote(turns)
    requires forall p :: p in ps ==> BuilderMade(p) && PayloadLen(p.payload) <= MAX_PACKET_PAYLOAD_SIZE
    ensures var stamped := StampAll(ps, turns, 1);
            Concat(WriteFrames(AfterSetup(maxPacketSize), FramesOf(stamped)).bulk)
            == EncodeAll([VERSION_PACKET, SETUP_PACKET] + stamped)
  {
    SetupTransfers(maxPacketSize);
    TransfersCarryThePipe(AfterSetup(maxPacketSize), ps, turns, 1);
    OutputIsEncodings(ps, turns, 0, 1);
    AllSurvive(StampAll(ps, turns, 1), turns);
    assert ps[0..] == ps && turns[0..] == turns;
    EncodeAllPair(VERSION_PACKET, SETUP_PACKET, StampAll(ps, turns, 1));
  }

  lemma AllAreWellFormed(ps: seq<Packet>, turns: seq<Turn>)
    requires |ps| <= |turns|
    requires forall p :: p in ps ==> BuilderMade(p) && PayloadLen(p.payload) <= MAX_PACKET_PAYLOAD_SIZE
    ensures forall p :: p in [VERSION_PACKET, SETUP_PACKET] + StampAll(ps, turns, 1) ==> WellFormed(p)
  {
    forall p | p in ps ensures BuilderMade(p) && FrameLen(p) < 0x1_0000_0000 {
      BoundedFrameLen(p);
    }
    StampedAreWellFormed(ps, turns);
    SetupIsWellFormed();
  }

  lemma BoundedFrameLen(p: Packet)
    requires PayloadLen(p.payload) <= MAX_PACKET_PAYLOAD_SIZE
    ensures FrameLen(p) <= MAX_PACKET_SIZE
  {
  }

  lemma SetupIsWellFormed()
    ensures WellFormed(VERSION_PACKET) && WellFormed(SETUP_PACKET)
  {
  }

  lemma StreamEndsHere(ps: seq<Packet>)
    requires forall p :: p in ps ==> WellFormed(p)
    ensures ParseMany(EncodeAll(ps), |ps|) == Parsed(ps, [])
  {
    StreamRoundTrip(ps, []);
    assert EncodeAll(ps) + [] == EncodeAll(ps);
  }

  /** End to end: the bytes of all bulk transfers ever made to a device parse, frame by frame, as the
      version packet, the setup packet and then every packet given to the writer loop, in order,
      with its numbers. */
  lemma DeviceReceivesEveryPacket(maxPacketSize: nat, ps: seq<Packet>, turns: seq<Turn>)
    requires |ps| <= |turns| && AllWrote(turns)
    requires forall p :: p in ps ==> BuilderMade(p) && PayloadLen(p.payload) <= MAX_PACKET_PAYLOAD_SIZE
    ensures var stamped := StampAll(ps, turns, 1);
            && ParseMany(Concat(WriteFrames(AfterSetup(maxPacketSize), FramesOf(stamped)).bulk), |ps| + 2)
               == Parsed([VERSION_PACKET, SETUP_PACKET] + stamped, [])
            && AllNumbered(stamped, ps, turns)
  {
    StampedAreNumbered(ps, turns);
    TransfersAreEncodings(maxPacketSize, ps, turns);
    AllAreWellFormed(ps, turns);
    StreamEndsHere([VERSION_PACKET, SETUP_PACKET] + StampAll(ps, turns, 1));
  }

  // ----- the first frame -----

  /** A packet as the writer channel yields it, with the connection that put it there. */
  datatype Queued = Queued(conn: nat, packet: Packet)

  function PacketsOf(q: seq<Queued>): seq<Packet> {
    seq(|q|, i requires 0 <= i < |q| => q[i].packet)
  }

  predicate IsSyn(p: Packet) {
    p.tcp.Some? && p == SynPacket(p.tcp.value.sourcePort, p.tcp.value.destinationPort)
  }

  predicate FirstOfItsConnection(q: seq<Queued>, i: nat)
    requires i < |q|
  {
    forall j :: 0 <= j < i ==> q[j].conn != q[i].conn
  }

  /** Every connection first sends the SYN of its handshake; nobody else sends. */
  ghost predicate ConnectionsStartWithSyn(q: seq<Queued>) {
    forall i :: 0 <= i < |q| && FirstOfItsConnection(q, i) ==> IsSyn(q[i].packet)
  }

  /** The transfers that differ if the setup bytes are counted are those after the first frame. */
  lemma CarriedBytesMatterExactly(frames: seq<Frame>, carried: nat, m: nat)
    requires frames != []
    ensures var len := |frames[0].headers + frames[0].payload|;
            Transfers(frames, carried, m) == Transfers(frames, 0, m)
            <==> (NeedsZlp(carried + len, m) <==> NeedsZlp(len, m))
  {
    var bytes := frames[0].headers + frames[0].payload;
    var tail := Transfers(frames[1..], 0, m);
    assert |[bytes] + [[]] + tail| == |[bytes] + [] + tail| + 1;
  }

  lemma MulMonotone(a: nat, b: nat, c: nat)
    requires a <= b
    ensures a * c <= b * c
  {
  }

  /** Of two factors whose product is below (k + 1)^2 one is at most k. */
  lemma OneFactorIsSmall(q: nat, m: nat, k: nat)
    requires q * m < (k + 1) * (k + 1)
    ensures q <= k || m <= k
  {
    if q > k && m > k {
      MulMonotone(k + 1, q, m);
      MulMonotone(k + 1, m, k + 1);
    }
  }

  lemma Divisors36(m: nat)
    requires m > 0
    ensures 36 % m == 0 <==> m in {1, 2, 3, 4, 6, 9, 12, 18, 36}
  {
    if 36 % m == 0 {
      var q := 36 / m;
      assert 36 == q * m;
      OneFactorIsSmall(q, m, 6);
      assert m <= 6 ==> m == 1 || m == 2 || m == 3 || m == 4 || m == 5 || m == 6;
      assert q <= 6 ==> q == 0 || q == 1 || q == 2 || q == 3 || q == 4 || q == 5 || q == 6;
    }
  }

  lemma Divisors73(m: nat)
    requires m > 0
    ensures 73 % m == 0 <==> m in {1, 73}
  {
    if 73 % m == 0 {
      var q := 73 / m;
      assert 73 == q * m;
      OneFactorIsSmall(q, m, 8);
      assert m <= 8 ==> m == 1 || m == 2 || m == 3 || m == 4 || m == 5 || m == 6 || m == 7 || m == 8;
      assert q <= 8 ==> q == 0 || q == 1 || q == 2 || q == 3 || q == 4 || q == 5 || q == 6 || q == 7 || q == 8;
    }
  }

  /** The packet sizes for which the setup bytes left in the transfer counter spoil the boundary of
      the first frame: those that divide 36 or 37 + 36 but not both. */
  const SPOILED_SIZES: set<nat> := {2, 3, 4, 6, 9, 12, 18, 36, 73}

  lemma SpoiledSizesExactly(m: nat)
    ensures (NeedsZlp(37 + 36, m) <==> NeedsZlp(36, m)) <==> m !in SPOILED_SIZES
  {
    if m > 0 {
      Divisors36(m);
      Divisors73(m);
    }
  }

  /** The first frame a device is given is a SYN of 36 bytes: no data, and of the flags only SYN. */
  lemma FirstFrameIsSyn(q: seq<Queued>, turns: seq<Turn>)
    requires q != [] && |q| <= |turns| && ConnectionsStartWithSyn(q)
    ensures var frames := FramesOf(StampAll(PacketsOf(q), turns, 1));
            && frames != [] && |frames[0].headers + frames[0].payload| == 36
            && frames[0].payload == [] && frames[0].headers[29] == 0x02
  {
    assert FirstOfItsConnection(q, 0);
    assert IsSyn(PacketsOf(q)[0]);
  }

  lemma SameAfterPrefix(prefix: seq<seq<u8>>, a: seq<seq<u8>>, b: seq<seq<u8>>)
    ensures prefix + a == prefix + b <==> a == b
  {
    assert (prefix + a)[|prefix|..] == a && (prefix + b)[|prefix|..] == b;
  }

  /** Whatever the connections send, every frame of a device is marked as its own length alone calls
      for, setup bytes or not, exactly when the packet size is none of nine values; for the first
      frame on the channel is some connection's SYN. */
  lemma BoundariesAreRightExactly(m: nat, q: seq<Queued>, turns: seq<Turn>)
    requires q != [] && |q| <= |turns| && ConnectionsStartWithSyn(q)
    requires forall p :: p in PacketsOf(q) ==> PayloadLen(p.payload) <= MAX_PACKET_PAYLOAD_SIZE
    ensures var frames := FramesOf(StampAll(PacketsOf(q), turns, 1));
            WriteFrames(AfterSetup(m), frames).bulk
            == [Encode(VERSION_PACKET), Encode(SETUP_PACKET)] + Transfers(frames, 0, m)
            <==> m !in SPOILED_SIZES
  {
    var frames := FramesOf(StampAll(PacketsOf(q), turns, 1));
    StampedFramesFit(PacketsOf(q), turns, 1);
    FirstFrameIsSyn(q, turns);
    TransferBoundaries(m, frames);
    CarriedBytesMatterExactly(frames, 37, m);
    SpoiledSizesExactly(m);
    SameAfterPrefix([Encode(VERSION_PACKET), Encode(SETUP_PACKET)], Transfers(frames, 37, m), Transfers(frames, 0, m));
  }

  // ----- the object -----

  class RusbAsyncWriter {
    const maxPacketSize: nat
    var buffer: seq<u8>
    var currentTransferLen: nat
    var pending: bool
    var bulk: seq<seq<u8>>

    ghost function View(): WriterState
      reads this
    {
      WriterState(maxPacketSize, buffer, currentTransferLen, pending, bulk)
    }

    constructor (size: nat)
      ensures View() == WriterState(size, [], 0, false, [])
    {
      maxPacketSize := size;
      buffer, currentTransferLen, pending, bulk := [], 0, false, [];
    }

    method PollWrite(bytes: seq<u8>, inFlight: InFlight, submits: bool) returns (r: WriteResult)
      modifies this
      ensures (View(), r) == Gather(old(View()), bytes, inFlight, submits)
    {
      if pending {
        match inFlight {
          case Running => return Busy;
          case Finished(status) => return if status != 0 then Failed else Busy;
          case Gone =>
            pending := false;
            return Failed;
        }
      }
      if bytes == [] {
        return Accepted(0);
      }
      buffer := buffer + bytes;
      if |buffer| >= AUTO_FLUSH_AT {
        var data := buffer;
        buffer := [];
        if !submits {
          return Failed;
        }
        bulk := bulk + [data];
        currentTransferLen := currentTransferLen + |bytes|;
        pending := true;
        return Busy;
      }
      return Accepted(|bytes|);
    }

    method SyncFlushAndZlp()
      modifies this
      ensures View() == SubmitEnd(old(View()))
    {
      if buffer != [] {
        var data := buffer;
        buffer := [];
        currentTransferLen := currentTransferLen + |data|;
        bulk := bulk + [data];
      }
      if currentTransferLen > 0 && maxPacketSize > 0 && currentTransferLen % maxPacketSize == 0 {
        bulk := bulk + [[]];
      }
      currentTransferLen := 0;
    }

    /** The writer loop's use of the writer for one packet; `write_all` makes no call for an empty
        slice. Whatever the endpoint does, both writes are accepted. */
    method WriteAndEnd(f: Frame, inFlight: InFlight, submits: bool)
      requires Idle(View()) && FrameFits(f)
      modifies this
      ensures View() == WriteFrame(old(View()), f)
      ensures Idle(View())
    {
      FrameIsOneTransfer(View(), f, inFlight, submits);
      var first := PollWrite(f.headers, inFlight, submits);
      assert first == Accepted(|f.headers|);
      if f.payload != [] {
        var second := PollWrite(f.payload, inFlight, submits);
        assert second == Accepted(|f.payload|);
      }
      SyncFlushAndZlp();
    }
  }
}
