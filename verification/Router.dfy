// The packet router and the reader loop that feeds it: which connection receives which of
// the packets the device sends.

module Router {
  import opened Common
  import opened Packets
  import opened Ports

  /** One entry of the routing table: everything ever put on the connection's channel, and
      whether the connection still holds the receiving end. */
  datatype PacketEntry = PacketEntry(delivered: seq<Packet>, connected: bool)

  /** `parsed` is the history of packets read from the device; `since[port]` is its length
      when the route was registered. */
  datatype RouterState = RouterState(
    routes: map<u16, PacketEntry>,
    tick: nat,
    parsed: seq<Packet>,
    since: map<u16, nat>)

  datatype Action =
    | Register
    | Unregister(port: u16)
    | ReceiverGone(port: u16)   // the connection drops its receiving end
    | Clear                     // `clear`, and the draining of `take_all_conns`
    | Incoming(packet: Packet)  // the reader loop parsed a packet

  // ----- what each operation does -----

  function LiveRoutes(routes: map<u16, PacketEntry>): map<u16, PacketEntry> {
    map p | p in routes && routes[p].connected :: routes[p]
  }

  function Registered(s: RouterState): RouterState {
    var live := LiveRoutes(s.routes);
    var next := TickAfter(live.Keys, s.tick);
    match Handed(live.Keys, s.tick)
    case None => s.(routes := live, tick := next)
    case Some(p) => s.(routes := live[p := PacketEntry([], true)], tick := next, since := s.since[p := |s.parsed|])
  }

  function RoutingPort(p: Packet): u16 {
    if p.tcp.Some? then p.tcp.value.destinationPort else 0
  }

  /** `route`. The send waits for space in the channel and is taken when it completes. */
  function Routed(routes: map<u16, PacketEntry>, p: Packet): map<u16, PacketEntry> {
    var port := RoutingPort(p);
    if port !in routes then routes
    else if routes[port].connected then routes[port := PacketEntry(routes[port].delivered + [p], true)]
    else routes - {port}
  }

  function Step(s: RouterState, a: Action): RouterState {
    match a
    case Register => Registered(s)
    case Unregister(port) => s.(routes := s.routes - {port})
    case ReceiverGone(port) =>
      if port in s.routes then s.(routes := s.routes[port := s.routes[port].(connected := false)]) else s
    case Clear => s.(routes := map[])
    case Incoming(p) =>
      s.(parsed := s.parsed + [p],
         routes := if IsReset(p) then s.routes - {RoutingPort(p)} else Routed(s.routes, p))
  }

  function Run(s: RouterState, run: seq<Action>): RouterState
    decreases |run|
  {
    if run == [] then s else Run(Step(s, run[0]), run[1..])
  }

  ghost predicate Initial(s: RouterState) {
    s.routes == map[] && s.tick == 1 && s.parsed == []
  }

  // ----- demultiplexing -----

  /** The packets meant for a port: TCP, not a reset, and addressed to it. */
  predicate IsFor(p: Packet, port: u16) {
    p.tcp.Some? && !p.tcp.value.rst && p.tcp.value.destinationPort == port
  }

  function PacketsFor(ps: seq<Packet>, port: u16): seq<Packet> {
    if ps == [] then []
    else
      var last := ps[|ps| - 1];
      PacketsFor(ps[..|ps| - 1], port) + (if IsFor(last, port) then [last] else [])
  }

  ghost predicate NoResetFor(ps: seq<Packet>, port: u16) {
    forall p :: p in ps && IsReset(p) ==> p.tcp.value.destinationPort != port
  }

  ghost predicate RouteOk(s: RouterState, port: u16)
    requires port in s.routes
  {
    && port in s.since && s.since[port] <= |s.parsed|
    && NoResetFor(s.parsed[s.since[port]..], port)
    && s.routes[port].delivered == PacketsFor(s.parsed[s.since[port]..], port)
  }

  ghost predicate Inv(s: RouterState) {
    && 0 !in s.routes
    && forall port :: port in s.routes && s.routes[port].connected ==> RouteOk(s, port)
  }

  lemma PacketsForSnoc(ps: seq<Packet>, p: Packet, port: u16)
    ensures PacketsFor(ps + [p], port) == PacketsFor(ps, port) + (if IsFor(p, port) then [p] else [])
  {
    assert (ps + [p])[..|ps|] == ps;
  }

  /** One more packet, seen from a route registered after `from` packets. */
  lemma ParsedSnoc(parsed: seq<Packet>, from: nat, p: Packet, port: u16)
    requires from <= |parsed|
    ensures PacketsFor((parsed + [p])[from..], port)
         == PacketsFor(parsed[from..], port) + (if IsFor(p, port) then [p] else [])
    ensures NoResetFor(parsed[from..], port) && !(IsReset(p) && RoutingPort(p) == port)
            ==> NoResetFor((parsed + [p])[from..], port)
  {
    assert (parsed + [p])[from..] == parsed[from..] + [p];
    PacketsForSnoc(parsed[from..], p, port);
  }

  lemma IncomingKeepsRoute(s: RouterState, p: Packet, port: u16)
    requires port in s.routes && s.routes[port].connected && RouteOk(s, port)
    requires port != 0 && port in Step(s, Incoming(p)).routes
    ensures RouteOk(Step(s, Incoming(p)), port)
  {
    ParsedSnoc(s.parsed, s.since[port], p, port);
  }

  lemma HandedIsNotZero(occupied: set<u16>, tick: nat)
    ensures var r := Handed(occupied, tick); r.Some? ==> r.value != 0 && r.value !in occupied
  {
  }

  lemma StepKeepsInv(s: RouterState, a: Action)
    requires Inv(s)
    ensures Inv(Step(s, a))
  {
    var s' := Step(s, a);
    if a.Incoming? {
      forall port | port in s'.routes && s'.routes[port].connected ensures RouteOk(s', port) {
        IncomingKeepsRoute(s, a.packet, port);
      }
    } else if a.Register? {
      HandedIsNotZero(LiveRoutes(s.routes).Keys, s.tick);
      assert s.parsed[|s.parsed|..] == [];
    }
    forall port | port in s'.routes && s'.routes[port].connected ensures RouteOk(s', port) {
      if port in s.routes && !a.Incoming? && !(a.Register? && Handed(LiveRoutes(s.routes).Keys, s.tick) == Some(port)) {
        assert RouteOk(s, port);
      }
    }
  }

  lemma {:induction false} RunKeepsInv(s: RouterState, run: seq<Action>)
    requires Inv(s)
    ensures Inv(Run(s, run))
    decreases |run|
  {
    if run != [] {
      StepKeepsInv(s, run[0]);
      RunKeepsInv(Step(s, run[0]), run[1..]);
    }
  }

  /** Demultiplexing: after any run, a route whose connection is alive has been given exactly
      the packets for its port parsed since it was registered, in order, and none of them was
      a reset of that port (a reset removes the route). */
  lemma LiveRoutesGetTheirPackets(s: RouterState, run: seq<Action>, port: u16)
    requires Initial(s)
    requires port in Run(s, run).routes && Run(s, run).routes[port].connected
    ensures var s' := Run(s, run);
            && port in s'.since && s'.since[port] <= |s'.parsed|
            && s'.routes[port].delivered == PacketsFor(s'.parsed[s'.since[port]..], port)
            && NoResetFor(s'.parsed[s'.since[port]..], port)
  {
    RunKeepsInv(s, run);
  }

  /** A packet without a TCP header is parsed and reaches nobody: it goes to port 0, which is
      never allocated. */
  lemma HeaderlessPacketsReachNobody(s: RouterState, run: seq<Action>, p: Packet)
    requires Initial(s) && p.tcp.None?
    ensures Step(Run(s, run), Incoming(p)).routes == Run(s, run).routes
  {
    RunKeepsInv(s, run);
  }

  // ----- what each step leaves in the table -----

  predicate AddressedTo(p: Packet, port: u16) {
    p.tcp.Some? && p.tcp.value.destinationPort == port
  }

  /** One parsed packet, seen from one port: a live route gets every packet for it that is not a reset
      and stays; a reset removes the route, and so does any packet for a dead one; all other routes
      are left as they are, and a packet creates none. */
  lemma IncomingOnTable(s: RouterState, p: Packet, port: u16)
    requires port != 0
    ensures var s' := Step(s, Incoming(p));
            && s'.parsed == s.parsed + [p] && s'.since == s.since && s'.tick == s.tick
            && (port !in s.routes ==> port !in s'.routes)
            && (port in s.routes && !AddressedTo(p, port) ==> port in s'.routes && s'.routes[port] == s.routes[port])
            && (port in s.routes && AddressedTo(p, port) && (p.tcp.value.rst || !s.routes[port].connected)
                ==> port !in s'.routes)
            && (port in s.routes && AddressedTo(p, port) && !p.tcp.value.rst && s.routes[port].connected
                ==> port in s'.routes && s'.routes[port] == PacketEntry(s.routes[port].delivered + [p], true))
  {
  }

  /** The other steps, seen from one port. */
  lemma OthersOnTable(s: RouterState, a: Action, port: u16)
    requires !a.Incoming?
    ensures var s' := Step(s, a);
            && s'.parsed == s.parsed
            && (a.Clear? || a == Unregister(port) ==> port !in s'.routes)
            && (a.ReceiverGone? || (a.Unregister? && a.port != port) ==>
                  && (port in s'.routes <==> port in s.routes)
                  && (port in s.routes ==>
                        s'.routes[port] == PacketEntry(s.routes[port].delivered,
                                                       s.routes[port].connected && a != ReceiverGone(port))))
            && (!a.Register? ==> s'.since == s.since && s'.tick == s.tick)
  {
  }

  /** Registration, seen from one port: live routes stay as they are, dead ones go, and the one port
      handed out, if any, gets a fresh route. */
  lemma RegisterOnTable(s: RouterState, port: u16)
    ensures var live, s' := LiveRoutes(s.routes), Registered(s);
            var handed := Handed(live.Keys, s.tick) == Some(port);
            && (port in s'.routes <==> handed || (port in s.routes && s.routes[port].connected))
            && (handed ==> s'.routes[port] == PacketEntry([], true))
            && (handed ==> port in s'.since && s'.since[port] == |s.parsed|)
            && (handed ==> port in s.routes ==> !s.routes[port].connected)
            && (!handed && port in s'.routes ==> s'.routes[port] == s.routes[port])
            && (!handed && port in s.since ==> port in s'.since && s'.since[port] == s.since[port])
  {
    HandedIsNotZero(LiveRoutes(s.routes).Keys, s.tick);
  }

  /** Nothing in the run ends the route of the port. */
  predicate Undisturbed(run: seq<Action>, port: u16) {
    forall a :: a in run ==>
      && a != Unregister(port) && a != ReceiverGone(port) && a != Clear
      && (a.Incoming? ==> !(IsReset(a.packet) && AddressedTo(a.packet, port)))
  }

  /** The packets parsed during the run. */
  function ParsedIn(run: seq<Action>): seq<Packet> {
    if run == [] then [] else (if run[0].Incoming? then [run[0].packet] else []) + ParsedIn(run[1..])
  }

  lemma UndisturbedSplits(run: seq<Action>, port: u16)
    requires run != [] && Undisturbed(run, port)
    ensures Undisturbed([run[0]], port) && Undisturbed(run[1..], port)
  {
    assert run[0] in run;
    forall a | a in run[1..] ensures a in run {}
  }

  lemma UndisturbedStep(s: RouterState, a: Action, port: u16)
    requires port != 0 && port in s.routes && s.routes[port].connected && Undisturbed([a], port)
    ensures var s' := Step(s, a);
            && port in s'.routes && s'.routes[port].connected
            && s'.routes[port].delivered == s.routes[port].delivered + PacketsFor(ParsedIn([a]), port)
  {
    assert a in [a];
    assert ParsedIn([a]) == if a.Incoming? then [a.packet] else [] by { assert [a][1..] == []; }
    if a.Incoming? {
      IncomingOnTable(s, a.packet, port);
      assert [a.packet][..0] == [];
    } else if a.Register? {
      RegisterOnTable(s, port);
    } else {
      OthersOnTable(s, a, port);
    }
  }

  lemma {:induction false} PacketsForAppend(a: seq<Packet>, b: seq<Packet>, port: u16)
    ensures PacketsFor(a + b, port) == PacketsFor(a, port) + PacketsFor(b, port)
    decreases |b|
  {
    if b == [] {
      assert a + b == a;
    } else {
      var front, last := b[..|b| - 1], b[|b| - 1];
      PacketsForAppend(a, front, port);
      assert a + b == (a + front) + [last] && b == front + [last];
      PacketsForSnoc(a + front, last, port);
      PacketsForSnoc(front, last, port);
    }
  }

  lemma {:induction false} LiveRouteStays(s: RouterState, run: seq<Action>, port: u16)
    requires port != 0 && port in s.routes && s.routes[port].connected && Undisturbed(run, port)
    ensures var s' := Run(s, run);
            && port in s'.routes && s'.routes[port].connected
            && s'.routes[port].delivered == s.routes[port].delivered + PacketsFor(ParsedIn(run), port)
    decreases |run|
  {
    if run != [] {
      var a, s' := run[0], Step(s, run[0]);
      UndisturbedSplits(run, port);
      UndisturbedStep(s, a, port);
      LiveRouteStays(s', run[1..], port);
      PacketsInSplit(run, port);
      Regroup(s.routes[port].delivered, PacketsFor(ParsedIn([a]), port), PacketsFor(ParsedIn(run[1..]), port));
    }
  }

  lemma PacketsInSplit(run: seq<Action>, port: u16)
    requires run != []
    ensures PacketsFor(ParsedIn(run), port)
         == PacketsFor(ParsedIn([run[0]]), port) + PacketsFor(ParsedIn(run[1..]), port)
  {
    var first := if run[0].Incoming? then [run[0].packet] else [];
    assert ParsedIn([run[0]]) == first by { assert [run[0]][1..] == [] && first + [] == first; }
    PacketsForAppend(ParsedIn([run[0]]), ParsedIn(run[1..]), port);
  }

  lemma Regroup(a: seq<Packet>, b: seq<Packet>, c: seq<Packet>)
    ensures (a + b) + c == a + (b + c)
  {
  }

  lemma FreshRouteStays(s: RouterState, port: u16, after: seq<Action>)
    requires Handed(LiveRoutes(s.routes).Keys, s.tick) == Some(port) && Undisturbed(after, port)
    ensures var s' := Run(Step(s, Register), after);
            && port in s'.routes && s'.routes[port].connected
            && s'.routes[port].delivered == PacketsFor(ParsedIn(after), port)
  {
    RegisterOnTable(s, port);
    HandedIsNotZero(LiveRoutes(s.routes).Keys, s.tick);
    var s1 := Step(s, Register);
    assert port in s1.routes && s1.routes[port] == PacketEntry([], true);
    LiveRouteStays(s1, after, port);
    assert [] + PacketsFor(ParsedIn(after), port) == PacketsFor(ParsedIn(after), port);
  }

  /** Demultiplexing, from registration on: a port handed out after any run stays routed, with exactly
      the packets for it parsed since, in order, until it is unregistered, its receiver goes, a reset
      for it is parsed or the table is cleared. */
  lemma RegisteredRouteStays(s: RouterState, before: seq<Action>, port: u16, after: seq<Action>)
    requires Handed(LiveRoutes(Run(s, before).routes).Keys, Run(s, before).tick) == Some(port)
    requires Undisturbed(after, port)
    ensures var s' := Run(Step(Run(s, before), Register), after);
            && port in s'.routes && s'.routes[port].connected
            && s'.routes[port].delivered == PacketsFor(ParsedIn(after), port)
  {
    FreshRouteStays(Run(s, before), port, after);
  }

  // ----- registration -----

  /** With at most 62 live routes a registration succeeds: the new port had no live route, every
      live route is untouched, dead ones are gone, and the new route starts empty. */
  lemma RegisterAddsOneRoute(s: RouterState)
    requires |LiveRoutes(s.routes)| <= 62
    ensures var live := LiveRoutes(s.routes);
            exists p: u16 ::
              && p !in live
              && Registered(s).routes.Keys == live.Keys + {p}
              && Registered(s).routes[p] == PacketEntry([], true)
              && forall q :: q in live ==> Registered(s).routes[q] == s.routes[q]
  {
    var live := LiveRoutes(s.routes);
    assert |live.Keys| == |live|;
    AlwaysAvailable(live.Keys, s.tick);
    HandedIsNotZero(live.Keys, s.tick);
    var p := Handed(live.Keys, s.tick).value;
    assert Registered(s).routes == live[p := PacketEntry([], true)];
  }

  // ----- the objects -----

  class PacketRouter {
    var routes: map<u16, PacketEntry>
    var nextSourcePort: u16

    ghost var tick: nat
    ghost var parsed: seq<Packet>
    ghost var since: map<u16, nat>

    ghost predicate Valid()
      reads this
    {
      nextSourcePort == tick % 0x1_0000
    }

    ghost function View(): RouterState
      reads this
    {
      RouterState(routes, tick, parsed, since)
    }

    constructor ()
      ensures Valid() && Initial(View())
    {
      routes, nextSourcePort := map[], 1;
      tick, parsed, since := 1, [], map[];
    }

    method CleanupDead()
      modifies this
      ensures View() == old(View()).(routes := LiveRoutes(old(routes)))
      ensures nextSourcePort == old(nextSourcePort)
    {
      routes := map p | p in routes && routes[p].connected :: routes[p];
    }

    method Register() returns (r: Option<u16>)
      requires Valid()
      modifies this
      ensures Valid()
      ensures View() == Registered(old(View()))
      ensures r == Handed(LiveRoutes(old(routes)).Keys, old(tick))
    {
      CleanupDead();
      ghost var start := tick;
      ghost var end := tick + MAX_SOURCE_PORT_PROBES;
      for i := 0 to MAX_SOURCE_PORT_PROBES
        invariant Valid() && tick == start + i
        invariant routes == LiveRoutes(old(routes)) && parsed == old(parsed) && since == old(since)
        invariant Probe(routes.Keys, tick, end) == Probe(routes.Keys, start, end)
      {
        var sp := nextSourcePort;
        nextSourcePort := Add16(nextSourcePort, 1);
        NextTick(tick);
        tick := tick + 1;
        sp := if sp == 0 then 1 else sp;
        if sp !in routes {
          routes := routes[sp := PacketEntry([], true)];
          since := since[sp := |parsed|];
          return Some(sp);
        }
      }
      return None;
    }

    method Unregister(port: u16)
      modifies this
      ensures View() == Step(old(View()), Action.Unregister(port))
      ensures nextSourcePort == old(nextSourcePort)
    {
      routes := routes - {port};
    }

    method Clear()
      modifies this
      ensures View() == Step(old(View()), Action.Clear)
      ensures nextSourcePort == old(nextSourcePort)
    {
      routes := map[];
    }

    method Route(packet: Packet)
      modifies this
      ensures View() == old(View()).(routes := Routed(old(routes), packet))
      ensures nextSourcePort == old(nextSourcePort)
    {
      var port := if packet.tcp.Some? then packet.tcp.value.destinationPort else 0;
      if port in routes {
        var conn := routes[port];
        if conn.connected {
          routes := routes[port := conn.(delivered := conn.delivered + [packet])];
        } else {
          Unregister(port);
        }
      }
    }
  }

  lemma NextTick(tick: nat)
    ensures Add16(tick % 0x1_0000, 1) == (tick + 1) % 0x1_0000
  {
  }

  datatype ReadOutcome = GotPacket(packet: Packet) | IoError | OtherError

  class ReaderLoop {
    const router: PacketRouter
    var recvSeq: u16
    var running: bool

    ghost predicate Valid()
      reads this, router
    {
      router.Valid() && recvSeq == |router.parsed| % 0x1_0000
    }

    constructor (r: PacketRouter)
      requires r.Valid() && r.parsed == []
      ensures Valid() && router == r && running
    {
      router, recvSeq, running := r, 0, true;
    }

    /** One turn of the loop. The receive count stamped on outgoing packets is the number of
        packets parsed so far, modulo 2^16. */
    method OnRead(outcome: ReadOutcome)
      requires Valid() && running
      modifies this, router
      ensures Valid()
      ensures running <==> !outcome.IoError?
      ensures router.View() == (match outcome
                                case GotPacket(p) => Step(old(router.View()), Incoming(p))
                                case IoError => Step(old(router.View()), Action.Clear)
                                case OtherError => old(router.View()))
    {
      match outcome {
        case IoError =>
          router.Clear();
          running := false;
        case OtherError =>
        case GotPacket(packet) =>
          NextTick(|router.parsed|);
          recvSeq := Add16(recvSeq, 1);
          router.parsed := router.parsed + [packet];
          if packet.tcp.Some? && packet.tcp.value.rst {
            router.Unregister(packet.tcp.value.destinationPort);
          } else {
            router.Route(packet);
          }
      }
    }
  }
}
