// Flow control over whole runs, with unbounded totals in place of the 32-bit counters.

module FlowControl {
  import opened Common
  import opened Packets
  import opened Conn
  import opened StreamSpec
  import opened StreamInvariant

  /** Total number of bytes this side has sent, never wrapped. The SYN's byte is in `c0.sent`. */
  function Total(c0: ConnState, tr: seq<Event>): nat {
    c0.sent + BytesSent(tr)
  }

  function WindowBytes(c0: ConnState, tr: seq<Event>): nat {
    PeerWindow(c0.deviceWindow, tr) * 0x100
  }

  /** `acks[i]` is the true number of bytes the device had acknowledged to this stream before
      event `i`. A packet taken with a TCP header may only move it forward and never past what
      was sent; the wire shows it mod 2^32. The window may do anything. */
  ghost predicate HonestStep(c0: ConnState, pre: seq<Event>, e: Event, acked: nat, acked': nat) {
    if IsTcpTake(e) then
      && acked' % 0x1_0000_0000 == e.packet.tcp.value.acknowledgmentNumber
      && acked <= acked' <= Total(c0, pre)
    else acked' == acked
  }

  ghost predicate Honest(c0: ConnState, tr: seq<Event>, acks: seq<nat>) {
    && |acks| == |tr| + 1
    && acks[0] == c0.deviceReceived
    && forall i :: 0 <= i < |tr| ==> HonestStep(c0, tr[..i], tr[i], acks[i], acks[i + 1])
  }

  /** The right edge of the device's window after `n` events. */
  function EdgeAt(c0: ConnState, tr: seq<Event>, acks: seq<nat>, n: nat): nat
    requires n <= |tr| && n < |acks|
  {
    acks[n] + WindowBytes(c0, tr[..n])
  }

  /** A data packet ends inside the window in force when it is enqueued. */
  ghost predicate DataFits(c0: ConnState, pre: seq<Event>, e: Event, acked: nat) {
    e.Data? ==> Total(c0, pre) + PayloadLen(e.packet.payload) <= acked + WindowBytes(c0, pre)
  }

  ghost predicate AllDataFits(c0: ConnState, tr: seq<Event>, acks: seq<nat>)
    requires |acks| == |tr| + 1
  {
    forall i :: 0 <= i < |tr| ==> DataFits(c0, tr[..i], tr[i], acks[i])
  }

  /** `len` bytes built after `builtAt` events ended inside the window in force then, and are
      still the next bytes of the stream after `n` events. */
  ghost predicate BuiltInside(c0: ConnState, tr: seq<Event>, acks: seq<nat>, n: nat, builtAt: nat, len: nat)
    requires n <= |tr| < |acks|
  {
    && builtAt <= n
    && Total(c0, tr[..builtAt]) == Total(c0, tr[..n])
    && Total(c0, tr[..n]) + len <= EdgeAt(c0, tr, acks, builtAt)
  }

  ghost predicate DataBuiltInside(c0: ConnState, tr: seq<Event>, acks: seq<nat>, i: nat)
    requires i < |tr| < |acks|
  {
    tr[i].Data? ==> BuiltInside(c0, tr, acks, i, tr[i].builtAt, PayloadLen(tr[i].packet.payload))
  }

  function ParkedLen(s: StreamState): nat {
    if s.parked.Some? then s.lastWriteLen else 0
  }

  /** What a run keeps with no assumption on the device's window: never more in flight than the
      widest window, and every packet built inside the window of its time. */
  ghost predicate Flow(c0: ConnState, s: StreamState, acks: seq<nat>)
    requires |acks| == |s.trace| + 1
  {
    var n := |s.trace|;
    && acks[n] <= Total(c0, s.trace)
    && Total(c0, s.trace) + ParkedLen(s) <= acks[n] + MAX_WINDOW
    && s.conn.deviceReceived == acks[n] % 0x1_0000_0000
    && (s.parked.Some? ==> BuiltInside(c0, s.trace, acks, n, s.builtAt, s.lastWriteLen))
    && forall i :: 0 <= i < n ==> DataBuiltInside(c0, s.trace, acks, i)
  }

  // ----- one step -----

  lemma EdgeSnoc(c0: ConnState, tr: seq<Event>, e: Event, acks: seq<nat>, acked': nat, n: nat)
    requires n <= |tr| < |acks|
    ensures (tr + [e])[..n] == tr[..n]
    ensures EdgeAt(c0, tr + [e], acks + [acked'], n) == EdgeAt(c0, tr, acks, n)
  {
  }

  /** Earlier packets were built where they were built. */
  lemma BuiltInsideSnoc(c0: ConnState, tr: seq<Event>, e: Event, acks: seq<nat>, acked': nat)
    requires |acks| == |tr| + 1
    requires forall i :: 0 <= i < |tr| ==> DataBuiltInside(c0, tr, acks, i)
    requires e.Data? ==> BuiltInside(c0, tr, acks, |tr|, e.builtAt, PayloadLen(e.packet.payload))
    ensures forall i :: 0 <= i < |tr + [e]| ==> DataBuiltInside(c0, tr + [e], acks + [acked'], i)
  {
    forall i | 0 <= i < |tr + [e]| && (tr + [e])[i].Data?
      ensures DataBuiltInside(c0, tr + [e], acks + [acked'], i)
    {
      if i < |tr| { assert DataBuiltInside(c0, tr, acks, i); } else { assert tr[..i] == tr; }
      EdgeSnoc(c0, tr, e, acks, acked', i);
      EdgeSnoc(c0, tr, e, acks, acked', (tr + [e])[i].builtAt);
    }
  }

  /** A parked packet stays the next bytes of the stream while nothing is sent. */
  lemma ParkedInsideSnoc(c0: ConnState, s: StreamState, e: Event, acks: seq<nat>, acked': nat)
    requires |acks| == |s.trace| + 1 && Flow(c0, s, acks) && s.parked.Some?
    requires Total(c0, s.trace + [e]) == Total(c0, s.trace)
    ensures BuiltInside(c0, s.trace + [e], acks + [acked'], |s.trace| + 1, s.builtAt, s.lastWriteLen)
  {
    EdgeSnoc(c0, s.trace, e, acks, acked', s.builtAt);
    assert s.trace[..|s.trace|] == s.trace;
    assert (s.trace + [e])[..|s.trace| + 1] == s.trace + [e];
  }

  lemma ReceiveKeepsFlow(c0: ConnState, s: StreamState, acks: seq<nat>, acked': nat)
    requires |acks| == |s.trace| + 1 && Inv(c0, s) && Flow(c0, s, acks)
    requires Enabled(s, Receive) && s.rx != []
    requires HonestStep(c0, s.trace, Took(s.rx[0]), acks[|s.trace|], acked')
    ensures Flow(c0, PollRecv(s).0, acks + [acked'])
  {
    var e := Took(s.rx[0]);
    TookSnoc(c0, s.conn, s.trace, s.rx[0]);
    BuiltInsideSnoc(c0, s.trace, e, acks, acked');
    if s.parked.Some? { ParkedInsideSnoc(c0, s, e, acks, acked'); }
  }

  lemma FlushKeepsFlow(c0: ConnState, s: StreamState, buf: seq<u8>, acks: seq<nat>)
    requires |acks| == |s.trace| + 1 && Inv(c0, s) && Flow(c0, s, acks)
    requires Enabled(s, Flush(buf)) && PollSendPending(s, buf).1.Ready?
    ensures Flow(c0, PollSendPending(s, buf).0, acks + [acks[|s.trace|]])
  {
    var e := Data(s.parked.value, buf, s.origin, s.builtAt, s.lastWriteLen);
    DataSnoc(c0, s.conn, s.trace, e);
    Snoc(s.trace, e);
    BuiltInsideSnoc(c0, s.trace, e, acks, acks[|s.trace|]);
  }

  lemma BuildKeepsFlow(c0: ConnState, s: StreamState, buf: seq<u8>, acks: seq<nat>)
    requires |acks| == |s.trace| + 1 && Inv(c0, s) && Flow(c0, s, acks)
    requires Enabled(s, Build(buf))
    ensures Flow(c0, Park(s, buf), acks)
  {
    SendableIsTheRoomLeft(Total(c0, s.trace), acks[|s.trace|], s.conn.deviceWindow);
    assert s.trace[..|s.trace|] == s.trace;
  }

  /** An event that neither sends data nor brings news from the device. */
  lemma QuietKeepsFlow(c0: ConnState, s: StreamState, s': StreamState, e: Event, acks: seq<nat>)
    requires |acks| == |s.trace| + 1 && Flow(c0, s, acks)
    requires !e.Data? && !IsTcpTake(e)
    requires s'.trace == s.trace + [e] && s'.parked == s.parked && s'.lastWriteLen == s.lastWriteLen
    requires s'.builtAt == s.builtAt && s'.conn.deviceReceived == s.conn.deviceReceived
    ensures Flow(c0, s', acks + [acks[|s.trace|]])
  {
    Snoc(s.trace, e);
    BuiltInsideSnoc(c0, s.trace, e, acks, acks[|s.trace|]);
    if s.parked.Some? { ParkedInsideSnoc(c0, s, e, acks, acks[|s.trace|]); }
  }

  /** A step adds at most one event, at the end. */
  lemma StepExtendsTrace(s: StreamState, a: Step)
    requires Enabled(s, a)
    ensures var tr := Apply(s, a).trace; tr == s.trace || (tr != [] && Front(tr) == s.trace)
  {
  }

  /** The acknowledgment total after a step, given `Honest` for the longer trace. */
  lemma HonestLast(c0: ConnState, tr: seq<Event>, e: Event, acks: seq<nat>)
    requires Honest(c0, tr + [e], acks)
    ensures HonestStep(c0, tr, e, acks[|tr|], acks[|tr| + 1])
    ensures acks == acks[..|tr| + 1] + [acks[|tr| + 1]]
  {
    var tr' := tr + [e];
    assert tr'[..|tr|] == tr && tr'[|tr|] == e;
    assert HonestStep(c0, tr'[..|tr|], tr'[|tr|], acks[|tr|], acks[|tr| + 1]);
  }

  lemma StepKeepsFlow(c0: ConnState, s: StreamState, a: Step, acks: seq<nat>)
    requires Inv(c0, s) && Enabled(s, a)
    requires Honest(c0, Apply(s, a).trace, acks)
    requires |s.trace| < |acks| && Flow(c0, s, acks[..|s.trace| + 1])
    ensures Flow(c0, Apply(s, a), acks)
  {
    StepExtendsTrace(s, a);
    if Apply(s, a).trace == s.trace {
      SilentStepKeepsFlow(c0, s, a, acks);
    } else {
      EventStepKeepsFlow(c0, s, a, acks);
    }
  }

  lemma SilentStepKeepsFlow(c0: ConnState, s: StreamState, a: Step, acks: seq<nat>)
    requires Inv(c0, s) && Enabled(s, a) && Apply(s, a).trace == s.trace
    requires |acks| == |s.trace| + 1 && Flow(c0, s, acks[..|s.trace| + 1])
    ensures Flow(c0, Apply(s, a), acks)
  {
    assert acks[..|s.trace| + 1] == acks;
    if a.Build? { BuildKeepsFlow(c0, s, a.buf, acks); }
  }

  /** Every other event leaves alone what the window depends on. */
  lemma QuietStep(s: StreamState, a: Step, e: Event)
    requires Enabled(s, a) && !a.Receive? && !a.Flush? && Apply(s, a).trace == s.trace + [e]
    ensures !e.Data? && !IsTcpTake(e)
    ensures var s' := Apply(s, a);
            && s'.parked == s.parked && s'.lastWriteLen == s.lastWriteLen && s'.builtAt == s.builtAt
            && s'.conn.deviceReceived == s.conn.deviceReceived
  {
    assert (s.trace + [e])[|s.trace|] == e;
  }

  lemma EventStepKeepsFlow(c0: ConnState, s: StreamState, a: Step, acks: seq<nat>)
    requires Inv(c0, s) && Enabled(s, a)
    requires Apply(s, a).trace != s.trace
    requires Honest(c0, Apply(s, a).trace, acks)
    requires |s.trace| < |acks| && Flow(c0, s, acks[..|s.trace| + 1])
    ensures Flow(c0, Apply(s, a), acks)
  {
    StepExtendsTrace(s, a);
    var before := acks[..|s.trace| + 1];
    var e := Last(Apply(s, a).trace);
    assert Apply(s, a).trace == s.trace + [e];
    HonestLast(c0, s.trace, e, acks);
    if a.Receive? {
      ReceiveKeepsFlow(c0, s, before, acks[|s.trace| + 1]);
    } else if a.Flush? {
      FlushKeepsFlow(c0, s, a.buf, before);
    } else {
      QuietStep(s, a, e);
      QuietKeepsFlow(c0, s, Apply(s, a), e, before);
    }
  }

  // ----- whole runs -----

  lemma {:induction false} TraceOnlyGrows(s: StreamState, run: seq<Step>)
    requires Legal(s, run)
    ensures s.trace <= Run(s, run).trace
    decreases |run|
  {
    if run != [] {
      StepExtendsTrace(s, run[0]);
      TraceOnlyGrows(Apply(s, run[0]), run[1..]);
    }
  }

  lemma HonestPrefix(c0: ConnState, tr: seq<Event>, acks: seq<nat>, n: nat)
    requires Honest(c0, tr, acks) && n <= |tr|
    ensures Honest(c0, tr[..n], acks[..n + 1])
  {
    forall i | 0 <= i < n
      ensures HonestStep(c0, tr[..n][..i], tr[..n][i], acks[..n + 1][i], acks[..n + 1][i + 1])
    {
      assert tr[..n][..i] == tr[..i];
      assert HonestStep(c0, tr[..i], tr[i], acks[i], acks[i + 1]);
    }
  }

  /** Honesty over a whole run, seen from just after its first step. */
  lemma HonestSoFar(c0: ConnState, s: StreamState, run: seq<Step>, acks: seq<nat>)
    requires Legal(s, run) && run != []
    requires Honest(c0, Run(s, run).trace, acks)
    ensures var n := |Apply(s, run[0]).trace|;
            && |s.trace| <= n < |acks|
            && Honest(c0, Apply(s, run[0]).trace, acks[..n + 1])
            && acks[..n + 1][..|s.trace| + 1] == acks[..|s.trace| + 1]
  {
    var s', final := Apply(s, run[0]), Run(s, run).trace;
    var n := |s'.trace|;
    StepExtendsTrace(s, run[0]);
    TraceOnlyGrows(s', run[1..]);
    assert final[..n] == s'.trace;
    HonestPrefix(c0, final, acks, n);
  }

  /** The first step of a run, with the acknowledgments of the whole run. */
  lemma FirstStepKeepsFlow(c0: ConnState, s: StreamState, run: seq<Step>, acks: seq<nat>)
    requires Inv(c0, s) && Legal(s, run) && run != []
    requires Honest(c0, Run(s, run).trace, acks)
    requires FlowSoFar(c0, s, acks)
    ensures FlowSoFar(c0, Apply(s, run[0]), acks)
  {
    HonestSoFar(c0, s, run, acks);
    StepKeepsFlow(c0, s, run[0], acks[..|Apply(s, run[0]).trace| + 1]);
  }

  ghost predicate FlowSoFar(c0: ConnState, s: StreamState, acks: seq<nat>) {
    |s.trace| < |acks| && Flow(c0, s, acks[..|s.trace| + 1])
  }

  lemma {:induction false} RunKeepsFlow(c0: ConnState, s: StreamState, run: seq<Step>, acks: seq<nat>)
    requires Inv(c0, s) && Legal(s, run)
    requires Honest(c0, Run(s, run).trace, acks)
    requires FlowSoFar(c0, s, acks)
    ensures FlowSoFar(c0, Run(s, run), acks)
    decreases |run|
  {
    if run != [] {
      StepKeepsInv(c0, s, run[0]);
      FirstStepKeepsFlow(c0, s, run, acks);
      RunKeepsFlow(c0, Apply(s, run[0]), run[1..], acks);
    }
  }

  lemma InitialFlow(s: StreamState, acks: seq<nat>)
    requires Initial(s) && acks != [] && acks[0] == s.conn.deviceReceived
    ensures Inv(s.conn, s) && FlowSoFar(s.conn, s, acks)
  {
  }

  lemma FlowOnEveryRun(s: StreamState, run: seq<Step>, acks: seq<nat>)
    requires Initial(s) && Legal(s, run)
    requires Honest(s.conn, Run(s, run).trace, acks)
    ensures Inv(s.conn, Run(s, run)) && Flow(s.conn, Run(s, run), acks)
  {
    InitialFlow(s, acks);
    RunKeepsFlow(s.conn, s, run, acks);
    InvOnEveryRun(s, run);
    assert acks[..|Run(s, run).trace| + 1] == acks;
  }

  // ----- exact counters -----

  /** The connection's fields mean what they should: the 32-bit subtraction is the true number of
      bytes in flight, and the cached sendable count is the true room left up to the right edge
      whenever no ACK is owed. */
  ghost predicate CountersExact(s: StreamState, total: nat, acked: nat, edge: nat) {
    && acked <= total
    && Sub32(s.conn.sent, s.conn.deviceReceived) == total - acked
    && (!s.needAck ==> s.conn.sendable == RoomLeft(total, edge))
  }

  lemma FlowMakesCountersExact(c0: ConnState, s: StreamState, acks: seq<nat>)
    requires |acks| == |s.trace| + 1 && Inv(c0, s) && Flow(c0, s, acks)
    ensures CountersExact(s, Total(c0, s.trace), acks[|s.trace|], EdgeAt(c0, s.trace, acks, |s.trace|))
  {
    var total, acked := Total(c0, s.trace), acks[|s.trace|];
    assert s.trace[..|s.trace|] == s.trace;
    Sub32Exact(total, acked);
    SendableIsTheRoomLeft(total, acked, s.conn.deviceWindow);
  }

  /** Exact counters, for streams of any length, every interleaving and any windows the device
      announces, shrinking ones included. */
  lemma CountersAreExact(s: StreamState, run: seq<Step>, acks: seq<nat>)
    requires Initial(s) && Legal(s, run)
    requires Honest(s.conn, Run(s, run).trace, acks)
    ensures var tr := Run(s, run).trace;
            CountersExact(Run(s, run), Total(s.conn, tr), acks[|tr|], EdgeAt(s.conn, tr, acks, |tr|))
  {
    FlowOnEveryRun(s, run, acks);
    FlowMakesCountersExact(s.conn, Run(s, run), acks);
  }

  // ----- which packets overrun the window -----

  /** Every data packet ended inside the window in force when it was built, and nothing else was
      sent between its building and its sending. */
  lemma PacketsAreBuiltInside(s: StreamState, run: seq<Step>, acks: seq<nat>, i: nat)
    requires Initial(s) && Legal(s, run)
    requires Honest(s.conn, Run(s, run).trace, acks)
    requires i < |Run(s, run).trace| && Run(s, run).trace[i].Data?
    ensures var tr := Run(s, run).trace;
            BuiltInside(s.conn, tr, acks, i, tr[i].builtAt, PayloadLen(tr[i].packet.payload))
  {
    FlowOnEveryRun(s, run, acks);
    assert DataBuiltInside(s.conn, Run(s, run).trace, acks, i);
  }

  /** Event `j` takes a packet that moves the right edge left of `end`, where it stays up to
      event `n`. */
  ghost predicate EdgeFallsShort(c0: ConnState, tr: seq<Event>, acks: seq<nat>, j: nat, n: nat, end: nat)
    requires j < n <= |tr| < |acks|
  {
    && IsTcpTake(tr[j])
    && end <= EdgeAt(c0, tr, acks, j)
    && forall k :: j < k <= n ==> EdgeAt(c0, tr, acks, k) < end
  }

  lemma EdgeMovesWithTakes(c0: ConnState, tr: seq<Event>, acks: seq<nat>, n: nat)
    requires Honest(c0, tr, acks) && n < |tr| && !IsTcpTake(tr[n])
    ensures EdgeAt(c0, tr, acks, n + 1) == EdgeAt(c0, tr, acks, n)
  {
    assert HonestStep(c0, tr[..n], tr[n], acks[n], acks[n + 1]);
    assert tr[..n + 1] == tr[..n] + [tr[n]];
    Snoc(tr[..n], tr[n]);
  }

  /** A packet taken after `from` events moved the right edge left of `end`, and none taken since
      has moved it back. */
  ghost predicate CutShort(c0: ConnState, tr: seq<Event>, acks: seq<nat>, from: nat, n: nat, end: nat)
    requires n <= |tr| < |acks|
  {
    exists j: nat :: from <= j < n && EdgeFallsShort(c0, tr, acks, j, n, end)
  }

  function Edges(c0: ConnState, tr: seq<Event>, acks: seq<nat>): (edges: seq<nat>)
    requires |acks| == |tr| + 1
    ensures |edges| == |tr| + 1
  {
    seq(|tr| + 1, n requires 0 <= n <= |tr| => EdgeAt(c0, tr, acks, n))
  }

  /** Where a series of edges last falls below `end` and stays there. */
  lemma {:induction false} LastFall(edges: seq<nat>, from: nat, n: nat, end: nat) returns (j: nat)
    requires from <= n < |edges| && edges[n] < end <= edges[from]
    ensures from <= j < n && end <= edges[j] && forall k :: j < k <= n ==> edges[k] < end
    decreases n - from
  {
    if end <= edges[n - 1] { j := n - 1; } else { j := LastFall(edges, from, n - 1, end); }
  }

  lemma EdgeFellShort(c0: ConnState, tr: seq<Event>, acks: seq<nat>, from: nat, n: nat, end: nat)
    requires Honest(c0, tr, acks) && from <= n <= |tr|
    requires EdgeAt(c0, tr, acks, n) < end <= EdgeAt(c0, tr, acks, from)
    ensures CutShort(c0, tr, acks, from, n, end)
  {
    var edges := Edges(c0, tr, acks);
    var j := LastFall(edges, from, n, end);
    assert edges[j + 1] < end;
    if !IsTcpTake(tr[j]) { EdgeMovesWithTakes(c0, tr, acks, j); }
    forall k | j < k <= n ensures EdgeAt(c0, tr, acks, k) < end { assert edges[k] < end; }
    assert EdgeFallsShort(c0, tr, acks, j, n, end);
  }

  /** A data packet overruns the window exactly if, while it was parked, the device moved the right
      edge of its window left of the packet's end. */
  lemma OverrunsExactly(s: StreamState, run: seq<Step>, acks: seq<nat>, i: nat)
    requires Initial(s) && Legal(s, run)
    requires Honest(s.conn, Run(s, run).trace, acks)
    requires i < |Run(s, run).trace| && Run(s, run).trace[i].Data?
    ensures var c0, tr := s.conn, Run(s, run).trace;
            var end := Total(c0, tr[..i]) + PayloadLen(tr[i].packet.payload);
            DataFits(c0, tr[..i], tr[i], acks[i]) <==> !CutShort(c0, tr, acks, tr[i].builtAt, i, end)
  {
    var c0, tr := s.conn, Run(s, run).trace;
    var end := Total(c0, tr[..i]) + PayloadLen(tr[i].packet.payload);
    PacketsAreBuiltInside(s, run, acks, i);
    if EdgeAt(c0, tr, acks, i) < end {
      EdgeFellShort(c0, tr, acks, tr[i].builtAt, i, end);
    }
  }

  // ----- the test that would prevent it -----

  /** The step puts a data packet on the channel. */
  predicate Sends(s: StreamState, a: Step) {
    a.Flush? && s.parked.Some? && s.txOpen && |s.tx| < CHANNEL_CAPACITY
  }

  /** A test on the connection's own fields, which the code does not make before it sends what
      was parked. */
  predicate StillFits(s: StreamState) {
    Sub32(s.conn.sent, s.conn.deviceReceived) + s.lastWriteLen <= s.conn.deviceWindow * 0x100
  }

  lemma SendFitsExactly(c0: ConnState, s: StreamState, a: Step, acks: seq<nat>)
    requires |acks| == |s.trace| + 1 && Inv(c0, s) && Flow(c0, s, acks)
    requires Enabled(s, a) && Sends(s, a)
    ensures var tr := Apply(s, a).trace;
            && tr == s.trace + [Last(tr)] && Last(tr).Data?
            && (DataFits(c0, s.trace, Last(tr), acks[|s.trace|]) <==> StillFits(s))
  {
    FlowMakesCountersExact(c0, s, acks);
  }

  /** One send, after any run: the packet ends inside the window now in force exactly if the
      32-bit fields say so. */
  lemma ParkedPacketFitsExactly(s: StreamState, run: seq<Step>, acks: seq<nat>, a: Step)
    requires Initial(s) && Legal(s, run) && Enabled(Run(s, run), a) && Sends(Run(s, run), a)
    requires Honest(s.conn, Run(s, run).trace, acks)
    ensures var s' := Run(s, run);
            var tr := Apply(s', a).trace;
            && tr == s'.trace + [Last(tr)] && Last(tr).Data?
            && (DataFits(s.conn, s'.trace, Last(tr), acks[|s'.trace|]) <==> StillFits(s'))
  {
    FlowOnEveryRun(s, run, acks);
    SendFitsExactly(s.conn, Run(s, run), a, acks);
  }

  /** Whatever the run sends passes the test at that moment. */
  ghost predicate SendsWhatStillFits(s: StreamState, run: seq<Step>)
    requires Legal(s, run)
    decreases |run|
  {
    run == [] || ((Sends(s, run[0]) ==> StillFits(s)) && SendsWhatStillFits(Apply(s, run[0]), run[1..]))
  }

  lemma AllDataFitsSnoc(c0: ConnState, tr: seq<Event>, e: Event, acks: seq<nat>, fits: bool)
    requires |tr| + 1 < |acks| && (DataFits(c0, tr, e, acks[|tr|]) <==> fits)
    ensures AllDataFits(c0, tr + [e], acks[..|tr| + 2]) <==> AllDataFits(c0, tr, acks[..|tr| + 1]) && fits
  {
    var tr' := tr + [e];
    assert tr'[..|tr|] == tr && tr'[|tr|] == e;
    forall i | 0 <= i < |tr| ensures tr'[..i] == tr[..i] && tr'[i] == tr[i] {}
    if AllDataFits(c0, tr', acks[..|tr| + 2]) {
      assert DataFits(c0, tr'[..|tr|], tr'[|tr|], acks[|tr|]);
      forall i | 0 <= i < |tr| ensures DataFits(c0, tr[..i], tr[i], acks[i]) {
        assert DataFits(c0, tr'[..i], tr'[i], acks[i]);
      }
    }
  }

  /** An event is an overrun exactly if its step sends what no longer fits. */
  lemma EventFitsExactly(c0: ConnState, s: StreamState, a: Step, e: Event, acks: seq<nat>)
    requires |acks| == |s.trace| + 1 && Inv(c0, s) && Flow(c0, s, acks)
    requires Enabled(s, a) && Apply(s, a).trace == s.trace + [e]
    ensures DataFits(c0, s.trace, e, acks[|s.trace|]) <==> (Sends(s, a) ==> StillFits(s))
  {
    assert (s.trace + [e])[|s.trace|] == e;
    if Sends(s, a) { SendFitsExactly(c0, s, a, acks); } else { assert !e.Data?; }
  }

  lemma SilentStepSendsNothing(s: StreamState, a: Step)
    requires Enabled(s, a) && Apply(s, a).trace == s.trace
    ensures !Sends(s, a)
  {
  }

  lemma StepFitsExactly(c0: ConnState, s: StreamState, a: Step, tr: seq<Event>, acks: seq<nat>)
    requires Inv(c0, s) && Enabled(s, a) && tr == Apply(s, a).trace && FlowSoFar(c0, s, acks)
    requires |tr| < |acks| && (tr == s.trace || (tr != [] && Front(tr) == s.trace))
    ensures AllDataFits(c0, tr, acks[..|tr| + 1])
       <==> AllDataFits(c0, s.trace, acks[..|s.trace| + 1]) && (Sends(s, a) ==> StillFits(s))
  {
    if tr == s.trace {
      SilentStepSendsNothing(s, a);
    } else {
      var e := Last(tr);
      assert tr == s.trace + [e];
      EventFitsExactly(c0, s, a, e, acks[..|s.trace| + 1]);
      AllDataFitsSnoc(c0, s.trace, e, acks, Sends(s, a) ==> StillFits(s));
    }
  }

  lemma {:induction false} RunFitsExactly(c0: ConnState, s: StreamState, run: seq<Step>, acks: seq<nat>)
    requires Inv(c0, s) && Legal(s, run) && FlowSoFar(c0, s, acks)
    requires Honest(c0, Run(s, run).trace, acks)
    ensures AllDataFits(c0, Run(s, run).trace, acks)
       <==> AllDataFits(c0, s.trace, acks[..|s.trace| + 1]) && SendsWhatStillFits(s, run)
    decreases |run|
  {
    if run == [] {
      assert acks[..|s.trace| + 1] == acks;
    } else {
      HonestSoFar(c0, s, run, acks);
      StepKeepsInv(c0, s, run[0]);
      FirstStepKeepsFlow(c0, s, run, acks);
      StepExtendsTrace(s, run[0]);
      StepFitsExactly(c0, s, run[0], Apply(s, run[0]).trace, acks);
      RunFitsExactly(c0, Apply(s, run[0]), run[1..], acks);
    }
  }

  /** Window safety of a whole run, exactly: no data packet ever overruns the window in force
      when it is enqueued if and only if every send passed the test on the connection's fields. */
  lemma WindowSafetyExactly(s: StreamState, run: seq<Step>, acks: seq<nat>)
    requires Initial(s) && Legal(s, run)
    requires Honest(s.conn, Run(s, run).trace, acks)
    ensures AllDataFits(s.conn, Run(s, run).trace, acks) <==> SendsWhatStillFits(s, run)
  {
    InitialFlow(s, acks);
    RunFitsExactly(s.conn, s, run, acks);
  }

  // ----- devices that keep their promises -----

  ghost predicate EdgeNeverMovesLeft(c0: ConnState, tr: seq<Event>, acks: seq<nat>)
    requires |acks| == |tr| + 1
  {
    forall j, k :: 0 <= j <= k <= |tr| ==> EdgeAt(c0, tr, acks, j) <= EdgeAt(c0, tr, acks, k)
  }

  lemma {:induction false} SentStaysInside(c0: ConnState, tr: seq<Event>, acks: seq<nat>, n: nat)
    requires Honest(c0, tr, acks) && EdgeNeverMovesLeft(c0, tr, acks) && AllDataFits(c0, tr, acks)
    requires n <= |tr| && c0.sent == c0.deviceReceived
    ensures Total(c0, tr[..n]) <= EdgeAt(c0, tr, acks, n)
  {
    if n > 0 {
      SentStaysInside(c0, tr, acks, n - 1);
      assert tr[..n] == tr[..n - 1] + [tr[n - 1]];
      Snoc(tr[..n - 1], tr[n - 1]);
      assert DataFits(c0, tr[..n - 1], tr[n - 1], acks[n - 1]);
      assert EdgeAt(c0, tr, acks, n - 1) <= EdgeAt(c0, tr, acks, n);
    }
  }

  /** Flow-control safety against a device that never moves its right edge left: every data packet
      ever enqueued ends within the window in force when it was enqueued, everything in flight
      fits the window, the cached count is exactly the room left (capped at one packet), and a
      packet parked by a full channel still fits. */
  lemma FlowControlIsSafe(s: StreamState, run: seq<Step>, acks: seq<nat>)
    requires Initial(s) && Legal(s, run)
    requires Honest(s.conn, Run(s, run).trace, acks) && EdgeNeverMovesLeft(s.conn, Run(s, run).trace, acks)
    ensures AllDataFits(s.conn, Run(s, run).trace, acks)
    ensures var s' := Run(s, run);
            var total, edge := Total(s.conn, s'.trace), EdgeAt(s.conn, s'.trace, acks, |s'.trace|);
            && total <= edge
            && (!s'.needAck ==> s'.conn.sendable == Min(edge - total, MAX_PACKET_PAYLOAD_SIZE))
            && (s'.parked.Some? ==> total + PayloadLen(s'.parked.value.payload) <= edge)
  {
    var c0, s' := s.conn, Run(s, run);
    var tr := s'.trace;
    FlowOnEveryRun(s, run, acks);
    CountersAreExact(s, run, acks);
    forall i | 0 <= i < |tr| ensures DataFits(c0, tr[..i], tr[i], acks[i]) {
      assert DataBuiltInside(c0, tr, acks, i);
      if tr[i].Data? { assert EdgeAt(c0, tr, acks, tr[i].builtAt) <= EdgeAt(c0, tr, acks, i); }
    }
    SentStaysInside(c0, tr, acks, |tr|);
    assert tr[..|tr|] == tr;
    if s'.parked.Some? { assert EdgeAt(c0, tr, acks, s'.builtAt) <= EdgeAt(c0, tr, acks, |tr|); }
  }

  // ----- and one that does not -----

  /** A stream with 256 bytes of window whose writer channel other connections have filled, and
      a device about to announce a closed window. */
  function Crowded(other: Packet): StreamState {
    var c := ConnState(2, 62078, 1, 1, 0x100, 1, 1, false);
    StreamState(c, [], false, 0, None, [], 0, [WindowClosed()], true,
                seq(CHANNEL_CAPACITY, (_: nat) => other), true, [])
  }

  function WindowClosed(): Packet {
    BuildTcp(BuildTcpHeader(62078, 2, 1, 1, ACK).(windowSize := 0), [])
  }

  /** The packet parks, and then the announcement of the closed window is taken. */
  lemma ParksThenCloses(other: Packet, data: u8) returns (s': StreamState)
    ensures Initial(Crowded(other)) && Legal(Crowded(other), [Build([data]), Receive])
    ensures s' == Run(Crowded(other), [Build([data]), Receive])
    ensures s'.trace == [Took(WindowClosed())] && s'.needAck && s'.txOpen && |s'.tx| == CHANNEL_CAPACITY
    ensures s'.parked.Some? && PayloadLen(s'.parked.value.payload) == 1
    ensures s'.origin == [data] && s'.builtAt == 0 && s'.lastWriteLen == 1
  {
    TwoSteps(Crowded(other), Build([data]), Receive);
    s' := Apply(Apply(Crowded(other), Build([data])), Receive);
  }

  /** Two slots become free, and the ACK and the parked packet take them. */
  lemma AcksThenFlushes(s: StreamState, buf: seq<u8>)
    requires s.needAck && s.parked.Some? && s.txOpen && |s.tx| == CHANNEL_CAPACITY && buf != []
    ensures Legal(s, [Drain, Drain] + [SendAck, Flush(buf)])
    ensures Run(s, [Drain, Drain] + [SendAck, Flush(buf)]).trace
         == s.trace + [Flag(BuildFlag(s.conn, ACK))] + [Data(s.parked.value, buf, s.origin, s.builtAt, s.lastWriteLen)]
  {
    TwoSteps(s, Drain, Drain);
    TwoSteps(Run(s, [Drain, Drain]), SendAck, Flush(buf));
    RunConcat(s, [Drain, Drain], [SendAck, Flush(buf)]);
  }

  lemma CrowdedRun(other: Packet, data: u8) returns (run: seq<Step>, p: Packet, ack: Packet)
    ensures Initial(Crowded(other)) && Legal(Crowded(other), run)
    ensures Run(Crowded(other), run).trace == [Took(WindowClosed()), Flag(ack), Data(p, [data], [data], 0, 1)]
    ensures PayloadLen(p.payload) == 1
  {
    var s' := ParksThenCloses(other, data);
    AcksThenFlushes(s', [data]);
    RunConcat(Crowded(other), [Build([data]), Receive], [Drain, Drain] + [SendAck, Flush([data])]);
    run := [Build([data]), Receive] + ([Drain, Drain] + [SendAck, Flush([data])]);
    p, ack := s'.parked.value, BuildFlag(s'.conn, ACK);
  }

  /** The trace of that run overruns the window, although the acknowledgments are honest. */
  lemma CrowdedOverruns(c0: ConnState, ack: Packet, p: Packet, data: u8)
    requires c0.sent == c0.deviceReceived == 1 && PayloadLen(p.payload) == 1
    ensures var tr := [Took(WindowClosed()), Flag(ack), Data(p, [data], [data], 0, 1)];
            Honest(c0, tr, [1, 1, 1, 1]) && !AllDataFits(c0, tr, [1, 1, 1, 1])
  {
    var tr := [Took(WindowClosed()), Flag(ack), Data(p, [data], [data], 0, 1)];
    var acks: seq<nat> := [1, 1, 1, 1];
    assert tr[..0] == [] && tr[..2] == [Took(WindowClosed()), Flag(ack)];
    assert Front(tr[..2]) == [Took(WindowClosed())] && Front([Took(WindowClosed())]) == [];
    assert BytesSent([Took(WindowClosed())]) == 0;
    assert PeerWindow(c0.deviceWindow, [Took(WindowClosed())]) == 0;
    assert WindowBytes(c0, tr[..2]) == 0 && Total(c0, tr[..2]) == 1;
    assert !DataFits(c0, tr[..2], tr[2], acks[2]);
    forall i | 0 <= i < |tr| ensures HonestStep(c0, tr[..i], tr[i], acks[i], acks[i + 1]) {}
  }

  /** One packet that parks while the channel is full goes out after the device has closed its
      window: `poll_write` sends what it parked without looking at the window again. */
  lemma ShrinkingWindowBreaksSafety(other: Packet, data: u8)
    ensures exists run: seq<Step>, acks: seq<nat> ::
              && Initial(Crowded(other)) && Legal(Crowded(other), run)
              && Honest(Crowded(other).conn, Run(Crowded(other), run).trace, acks)
              && !AllDataFits(Crowded(other).conn, Run(Crowded(other), run).trace, acks)
  {
    var run, p, ack := CrowdedRun(other, data);
    CrowdedOverruns(Crowded(other).conn, ack, p, data);
  }
}
