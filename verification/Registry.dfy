// The daemon's device registry: one map from device id to device, changed by the USB watcher,
// the network watcher and AddDevice requests, each of which broadcasts attach and detach
// events. A network device is hidden while a USB device has the same UDID.

module Registry {
  import opened Common

  datatype Kind = Usb | Network
  datatype Device = Device(kind: Kind, udid: string)
  datatype DeviceEvent = Attached(id: nat) | Detached(id: nat)

  type Devices = map<nat, Device>

  /** `events` is everything ever broadcast and `used` every id ever inserted. The last two
      fields are bookkeeping of this model: `stale` are ids dropped from the map without a
      Detached event, `lost` are visible ids whose last event is a Detached. */
  datatype State = State(devices: Devices, events: seq<DeviceEvent>, used: set<nat>, stale: set<nat>, lost: set<nat>)

  datatype Action =
    | UsbConnected(id: nat, udid: string)
    | UsbDisconnected(id: nat)
    | NetworkConnected(id: nat, udid: string)
    | NetworkDisconnected(id: nat)
    | AddDevice(id: nat, udid: string, force: bool, connects: bool)

  // ----- queries -----

  ghost predicate HasUsb(m: Devices, udid: string) {
    exists id :: id in m && m[id] == Device(Usb, udid)
  }

  ghost predicate HasNetwork(m: Devices, udid: string) {
    exists id :: id in m && m[id] == Device(Network, udid)
  }

  ghost function NetworkId(m: Devices, udid: string): (r: Option<nat>)
    ensures r.Some? ==> r.value in m && m[r.value] == Device(Network, udid)
    ensures r.None? ==> !HasNetwork(m, udid)
  {
    if HasNetwork(m, udid) then
      var id :| id in m && m[id] == Device(Network, udid);
      Some(id)
    else None
  }

  ghost predicate Shadowed(m: Devices, id: nat)
    requires id in m
  {
    m[id].kind.Network? && HasUsb(m, m[id].udid)
  }

  ghost predicate Visible(m: Devices, id: nat) {
    id in m && !Shadowed(m, id)
  }

  ghost function VisibleIds(m: Devices): set<nat> {
    set id | id in m && !Shadowed(m, id)
  }

  // ----- handlers, each one atomic step -----

  function Maybe(id: Option<nat>, detach: bool): seq<DeviceEvent> {
    match id
    case None => []
    case Some(n) => [if detach then Detached(n) else Attached(n)]
  }

  function AsSet(id: Option<nat>): set<nat> {
    if id.Some? then {id.value} else {}
  }

  /** The `retain` before a USB insert: drops USB entries of the same UDID. */
  function WithoutUsb(m: Devices, udid: string): Devices {
    map id | id in m && m[id] != Device(Usb, udid) :: m[id]
  }

  ghost function OnUsbConnected(s: State, id: nat, udid: string): State {
    var hidden := NetworkId(s.devices, udid);
    var kept := WithoutUsb(s.devices, udid);
    State(kept[id := Device(Usb, udid)],
          s.events + Maybe(hidden, true) + [Attached(id)],
          s.used + {id},
          s.stale + (s.devices.Keys - kept.Keys) - {id},
          s.lost - AsSet(hidden))
  }

  /** The events about a device just removed: a USB device uncovers the network device of its
      UDID, and a hidden network device goes unnoticed. */
  ghost function RemovalNews(rest: Devices, id: nat, d: Device): seq<DeviceEvent> {
    if d.kind.Usb? then Maybe(NetworkId(rest, d.udid), false) + [Detached(id)]
    else if HasUsb(rest, d.udid) then []
    else [Detached(id)]
  }

  ghost function OnRemoved(s: State, id: nat): State {
    if id !in s.devices then s
    else
      var rest := s.devices - {id};
      s.(devices := rest, events := s.events + RemovalNews(rest, id, s.devices[id]), lost := s.lost - {id})
  }

  /** Inserting a network device that is not in the map, and announcing it unless hidden. */
  ghost function InsertNetwork(s: State, id: nat, udid: string): State {
    s.(devices := s.devices[id := Device(Network, udid)],
       events := s.events + (if HasUsb(s.devices, udid) then [] else [Attached(id)]),
       used := s.used + {id})
  }

  ghost function OnNetworkConnected(s: State, id: nat, udid: string): State {
    if HasNetwork(s.devices, udid) then s else InsertNetwork(s, id, udid)
  }

  ghost function OnNetworkDisconnected(s: State, id: nat): State {
    if id !in s.devices then s
    else
      var rest := s.devices - {id};
      s.(devices := rest,
         events := s.events + (if HasUsb(rest, s.devices[id].udid) then [] else [Detached(id)]),
         lost := s.lost - {id})
  }

  /** `connects` says whether the new network device could be created. When it could not, the
      replaced entry goes back into the map and nobody is told. */
  ghost function OnAddDevice(s: State, id: nat, udid: string, force: bool, connects: bool): State {
    match NetworkId(s.devices, udid)
    case None => if connects then InsertNetwork(s, id, udid) else s
    case Some(prev) =>
      if !force then s
      else
        var s1 := s.(devices := s.devices - {prev}, events := s.events + [Detached(prev)], lost := s.lost - {prev});
        if connects then InsertNetwork(s1, id, udid)
        else s1.(devices := s1.devices[prev := s.devices[prev]],
                 lost := if HasUsb(s.devices, udid) then s1.lost else s1.lost + {prev})
  }

  ghost function Step(s: State, a: Action): State {
    match a
    case UsbConnected(id, udid) => OnUsbConnected(s, id, udid)
    case UsbDisconnected(id) => OnRemoved(s, id)
    case NetworkConnected(id, udid) => OnNetworkConnected(s, id, udid)
    case NetworkDisconnected(id) => OnNetworkDisconnected(s, id)
    case AddDevice(id, udid, force, connects) => OnAddDevice(s, id, udid, force, connects)
  }

  /** Ids come from one counter: network ids are new, a USB id is not in the map unless it is
      that very device again, and the network watcher only ends network devices. */
  ghost predicate Allowed(s: State, a: Action) {
    match a
    case UsbConnected(id, udid) => id in s.devices ==> s.devices[id] == Device(Usb, udid)
    case UsbDisconnected(_) => true
    case NetworkConnected(id, _) => id !in s.used
    case NetworkDisconnected(id) => id in s.devices ==> s.devices[id].kind.Network?
    case AddDevice(id, _, _, _) => id !in s.used
  }

  ghost predicate Legal(s: State, run: seq<Action>)
    decreases |run|
  {
    run == [] || (Allowed(s, run[0]) && Legal(Step(s, run[0]), run[1..]))
  }

  ghost function Run(s: State, run: seq<Action>): State
    decreases |run|
  {
    if run == [] then s else Run(Step(s, run[0]), run[1..])
  }

  ghost const START: State := State(map[], [], {}, {}, {})

  // ----- the invariant -----

  /** At most one USB and at most one network entry per UDID. */
  ghost predicate Dedup(m: Devices) {
    forall a, b :: a in m && b in m && m[a] == m[b] ==> a == b
  }

  /** The last event about an id is an Attached. */
  predicate Announced(events: seq<DeviceEvent>, id: nat) {
    if events == [] then false
    else
      var last := events[|events| - 1];
      if last.id == id then last.Attached? else Announced(events[..|events| - 1], id)
  }

  ghost predicate Inv(s: State) {
    && Dedup(s.devices)
    && s.devices.Keys <= s.used && s.stale <= s.used
    && s.stale !! s.devices.Keys
    && (forall id :: id in s.lost ==> Visible(s.devices, id) && s.devices[id].kind.Network?)
    && (forall id :: Announced(s.events, id) <==> (Visible(s.devices, id) && id !in s.lost) || id in s.stale)
  }

  lemma AnnouncedSnoc(events: seq<DeviceEvent>, e: DeviceEvent, id: nat)
    ensures Announced(events + [e], id) <==> if e.id == id then e.Attached? else Announced(events, id)
  {
    assert (events + [e])[..|events|] == events;
  }

  lemma AnnouncedMaybe(events: seq<DeviceEvent>, who: Option<nat>, detach: bool, id: nat)
    ensures Announced(events + Maybe(who, detach), id) <==> if who == Some(id) then !detach else Announced(events, id)
  {
    if who.None? {
      assert events + [] == events;
    } else {
      AnnouncedSnoc(events, Maybe(who, detach)[0], id);
    }
  }

  lemma UniqueNetwork(m: Devices, id: nat)
    requires Dedup(m) && id in m && m[id].kind.Network?
    ensures NetworkId(m, m[id].udid) == Some(id)
  {
  }

  // ----- each handler keeps it -----

  lemma UsbConnectedKeeps(s: State, id: nat, udid: string)
    requires Inv(s) && Allowed(s, UsbConnected(id, udid))
    ensures Inv(OnUsbConnected(s, id, udid))
  {
    var s', hidden := OnUsbConnected(s, id, udid), NetworkId(s.devices, udid);
    var m, m' := s.devices, s'.devices;
    assert m'[id] == Device(Usb, udid);
    forall k: nat ensures Announced(s'.events, k) <==> (Visible(m', k) && k !in s'.lost) || k in s'.stale {
      AnnouncedMaybe(s.events, hidden, true, k);
      AnnouncedSnoc(s.events + Maybe(hidden, true), Attached(id), k);
      OthersKeepVisibility(m, m', udid, id, k);
      if k in m && m[k] == Device(Network, udid) { UniqueNetwork(m, k); }
    }
    forall k | k in s'.lost ensures k in s'.devices && s'.devices[k].kind.Network? && Visible(m', k) {
      OthersKeepVisibility(m, m', udid, id, k);
      if m[k] == Device(Network, udid) { UniqueNetwork(m, k); }
    }
  }

  /** Inserting or removing the USB entry of one UDID changes no other UDID's visibility. */
  lemma OthersKeepVisibility(m: Devices, m': Devices, udid: string, id: nat, k: nat)
    requires m' == WithoutUsb(m, udid)[id := Device(Usb, udid)] && (id in m ==> m[id] == Device(Usb, udid))
    ensures k in m && m[k].udid != udid ==> (k in m' && m'[k] == m[k] && (Visible(m', k) <==> Visible(m, k)))
    ensures k in m && m[k] == Device(Network, udid) ==> k in m' && m'[k] == m[k] && !Visible(m', k)
    ensures k != id && k in m && m[k] == Device(Usb, udid) ==> k !in m'
    ensures k != id && k in m' ==> k in m
  {
    if k in m && m[k].udid != udid {
      if HasUsb(m, m[k].udid) {
        var u :| u in m && m[u] == Device(Usb, m[k].udid);
        assert u in m' && m'[u] == m[u];
      }
    }
    assert id in m' && m'[id] == Device(Usb, udid);
  }

  /** Visibility after removing one entry: only a network entry of a removed USB device's UDID
      can change. */
  lemma RemovalVisibility(m: Devices, id: nat, k: nat)
    requires Dedup(m) && id in m && k in m && k != id
    ensures var rest := m - {id};
            k in rest && rest[k] == m[k]
            && (Visible(rest, k) <==> Visible(m, k) || (m[id].kind.Usb? && m[k] == Device(Network, m[id].udid)))
  {
    var rest := m - {id};
    if HasUsb(m, m[k].udid) {
      var u :| u in m && m[u] == Device(Usb, m[k].udid);
      if u != id { assert u in rest && rest[u] == m[u]; }
    }
  }

  /** Whether an id is still announced after a USB device is removed. */
  lemma UsbRemovalStanding(s: State, id: nat, k: nat)
    requires Inv(s) && id in s.devices && s.devices[id].kind.Usb?
    ensures var s' := OnRemoved(s, id);
            Announced(s'.events, k) <==> (Visible(s'.devices, k) && k !in s'.lost) || k in s'.stale
  {
    var m, rest := s.devices, s.devices - {id};
    var next := NetworkId(rest, m[id].udid);
    if k in m && k != id { RemovalVisibility(m, id, k); }
    AnnouncedMaybe(s.events, next, false, k);
    AnnouncedSnoc(s.events + Maybe(next, false), Detached(id), k);
    assert s.events + (Maybe(next, false) + [Detached(id)]) == s.events + Maybe(next, false) + [Detached(id)];
    if k in rest && rest[k] == Device(Network, m[id].udid) { UniqueNetwork(rest, k); }
  }

  /** The same for a network device. */
  lemma NetworkRemovalStanding(s: State, id: nat, k: nat)
    requires Inv(s) && id in s.devices && s.devices[id].kind.Network?
    ensures var s' := OnRemoved(s, id);
            Announced(s'.events, k) <==> (Visible(s'.devices, k) && k !in s'.lost) || k in s'.stale
  {
    if k in s.devices && k != id { RemovalVisibility(s.devices, id, k); }
    NetworkRemovalIsSilentIffShadowed(s.devices, id);
    AnnouncedSnoc(s.events, Detached(id), k);
    assert s.events + [] == s.events;
  }

  lemma RemovedKeeps(s: State, id: nat)
    requires Inv(s)
    ensures Inv(OnRemoved(s, id))
  {
    if id in s.devices {
      var s' := OnRemoved(s, id);
      forall k: nat ensures Announced(s'.events, k) <==> (Visible(s'.devices, k) && k !in s'.lost) || k in s'.stale {
        if s.devices[id].kind.Usb? { UsbRemovalStanding(s, id, k); } else { NetworkRemovalStanding(s, id, k); }
      }
      forall k | k in s'.lost ensures k in s'.devices && s'.devices[k].kind.Network? && Visible(s'.devices, k) {
        RemovalVisibility(s.devices, id, k);
      }
    }
  }

  lemma NetworkRemovalIsSilentIffShadowed(m: Devices, id: nat)
    requires id in m && m[id].kind.Network?
    ensures HasUsb(m - {id}, m[id].udid) <==> Shadowed(m, id)
  {
    if Shadowed(m, id) {
      var u :| u in m && m[u] == Device(Usb, m[id].udid);
      assert u in m - {id} && (m - {id})[u] == m[u];
    }
  }

  lemma NetworkDisconnectedIsRemoved(s: State, id: nat)
    requires Allowed(s, NetworkDisconnected(id))
    ensures OnNetworkDisconnected(s, id) == OnRemoved(s, id)
  {
  }

  lemma InsertNetworkKeeps(s: State, id: nat, udid: string)
    requires Inv(s) && id !in s.used && !HasNetwork(s.devices, udid)
    ensures Inv(InsertNetwork(s, id, udid))
  {
    var s', m := InsertNetwork(s, id, udid), s.devices;
    forall k: nat ensures Announced(s'.events, k) <==> (Visible(s'.devices, k) && k !in s'.lost) || k in s'.stale {
      InsertionVisibility(m, id, udid, k);
      AnnouncedSnoc(s.events, Attached(id), k);
      assert s.events + [] == s.events;
    }
    forall k | k in s'.lost ensures k in s'.devices && s'.devices[k].kind.Network? && Visible(s'.devices, k) {
      InsertionVisibility(m, id, udid, k);
    }
  }

  lemma InsertionVisibility(m: Devices, id: nat, udid: string, k: nat)
    requires id !in m
    ensures var m' := m[id := Device(Network, udid)];
            if k == id then Visible(m', k) <==> !HasUsb(m, udid) else Visible(m', k) <==> Visible(m, k)
  {
    var m' := m[id := Device(Network, udid)];
    var u := if k == id then udid else if k in m then m[k].udid else "";
    if HasUsb(m, u) {
      var w :| w in m && m[w] == Device(Usb, u);
      assert w in m' && m'[w] == m[w];
    }
    if HasUsb(m', u) {
      var w :| w in m' && m'[w] == Device(Usb, u);
      assert w in m && m[w] == m'[w];
    }
  }

  /** Taking the previous network entry out before replacing it: like removing it, except that the
      Detached event is also sent for a hidden one, where it changes nothing. */
  lemma ReplacedKeeps(s: State, prev: nat)
    requires Inv(s) && prev in s.devices && s.devices[prev].kind.Network?
    ensures Inv(s.(devices := s.devices - {prev}, events := s.events + [Detached(prev)], lost := s.lost - {prev}))
    ensures !HasNetwork(s.devices - {prev}, s.devices[prev].udid)
  {
    var m, rest := s.devices, s.devices - {prev};
    var events := s.events + [Detached(prev)];
    forall k: nat ensures Announced(events, k) <==> (Visible(rest, k) && k !in s.lost - {prev}) || k in s.stale {
      if k in m && k != prev { RemovalVisibility(m, prev, k); }
      AnnouncedSnoc(s.events, Detached(prev), k);
    }
    forall k | k in s.lost - {prev} ensures Visible(rest, k) { RemovalVisibility(m, prev, k); }
  }

  lemma AddDeviceKeeps(s: State, id: nat, udid: string, force: bool, connects: bool)
    requires Inv(s) && id !in s.used
    ensures Inv(OnAddDevice(s, id, udid, force, connects))
  {
    match NetworkId(s.devices, udid)
    case None =>
      if connects { InsertNetworkKeeps(s, id, udid); }
    case Some(prev) =>
      if force {
        if connects {
          ReplacedKeeps(s, prev);
          var s1 := s.(devices := s.devices - {prev}, events := s.events + [Detached(prev)], lost := s.lost - {prev});
          InsertNetworkKeeps(s1, id, udid);
        } else {
          RestoredKeeps(s, prev, udid, id);
        }
      }
  }

  lemma RestoredKeeps(s: State, prev: nat, udid: string, id: nat)
    requires Inv(s) && NetworkId(s.devices, udid) == Some(prev)
    ensures Inv(OnAddDevice(s, id, udid, true, false))
  {
    var s' := OnAddDevice(s, id, udid, true, false);
    assert s'.devices == s.devices;
    forall k: nat ensures Announced(s'.events, k) <==> (Visible(s'.devices, k) && k !in s'.lost) || k in s'.stale {
      AnnouncedSnoc(s.events, Detached(prev), k);
    }
  }

  lemma StepKeepsInv(s: State, a: Action)
    requires Inv(s) && Allowed(s, a)
    ensures Inv(Step(s, a))
  {
    match a
    case UsbConnected(id, udid) => UsbConnectedKeeps(s, id, udid);
    case UsbDisconnected(id) => RemovedKeeps(s, id);
    case NetworkConnected(id, udid) =>
      if !HasNetwork(s.devices, udid) { InsertNetworkKeeps(s, id, udid); }
    case NetworkDisconnected(id) =>
      NetworkDisconnectedIsRemoved(s, id);
      RemovedKeeps(s, id);
    case AddDevice(id, udid, force, connects) => AddDeviceKeeps(s, id, udid, force, connects);
  }

  lemma {:induction false} RunKeepsInv(s: State, run: seq<Action>)
    requires Inv(s) && Legal(s, run)
    ensures Inv(Run(s, run))
    decreases |run|
  {
    if run != [] {
      StepKeepsInv(s, run[0]);
      RunKeepsInv(Step(s, run[0]), run[1..]);
    }
  }

  // ----- what follows -----

  /** `k` is the one entry of a UDID that clients see. */
  ghost predicate OnlyVisible(m: Devices, udid: string, k: nat) {
    && Visible(m, k) && m[k].udid == udid
    && (HasUsb(m, udid) ==> m[k].kind.Usb?)
    && forall other :: Visible(m, other) && m[other].udid == udid ==> other == k
  }

  /** Registry dedup, in every reachable state: a UDID with an entry has exactly one visible
      entry, the USB one if there is one. */
  lemma OneVisibleEntryPerUdid(run: seq<Action>, id: nat)
    requires Legal(START, run) && id in Run(START, run).devices
    ensures var m := Run(START, run).devices;
            Dedup(m) && exists k: nat :: OnlyVisible(m, m[id].udid, k)
  {
    RunKeepsInv(START, run);
    var m := Run(START, run).devices;
    var udid := m[id].udid;
    var k := id;
    if HasUsb(m, udid) {
      k :| k in m && m[k] == Device(Usb, udid);
    }
    assert Visible(m, k);
    forall other | Visible(m, other) && m[other].udid == udid ensures other == k {
      assert HasUsb(m, udid) ==> m[other].kind.Usb?;
      assert m[other] == m[k];
    }
    assert OnlyVisible(m, udid, k);
  }

  /** Exactly one event per change: the broadcast history and the map agree. */
  ghost predicate InSync(s: State) {
    forall id :: Announced(s.events, id) <==> Visible(s.devices, id)
  }

  lemma InSyncIsNothingLost(s: State)
    requires Inv(s)
    ensures InSync(s) <==> s.stale == {} && s.lost == {}
  {
    if InSync(s) {
      forall id: nat ensures id !in s.stale && id !in s.lost {
        assert Announced(s.events, id) <==> Visible(s.devices, id);
      }
    }
  }

  /** The two ways a handler lets the events drift from the map. */
  ghost predicate Drifts(s: State, a: Action) {
    match a
    case UsbConnected(id, udid) => exists k :: k in s.devices && k != id && s.devices[k] == Device(Usb, udid)
    case AddDevice(_, udid, force, connects) =>
      force && !connects && HasNetwork(s.devices, udid) && !HasUsb(s.devices, udid)
    case _ => false
  }

  /** From agreement, a handler ends in agreement exactly unless it replaces a stale USB entry
      under another id, or is a forced AddDevice that fails to connect while the network
      entry is visible. */
  lemma HandlersKeepSyncExactly(s: State, a: Action)
    requires Inv(s) && InSync(s) && Allowed(s, a)
    ensures InSync(Step(s, a)) <==> !Drifts(s, a)
  {
    InSyncIsNothingLost(s);
    StepKeepsInv(s, a);
    InSyncIsNothingLost(Step(s, a));
    if a.UsbConnected? {
      var kept := WithoutUsb(s.devices, a.udid);
      assert s.devices.Keys - kept.Keys == set k | k in s.devices && s.devices[k] == Device(Usb, a.udid);
      if Drifts(s, a) {
        var k :| k in s.devices && k != a.id && s.devices[k] == Device(Usb, a.udid);
        assert k in Step(s, a).stale;
      }
    }
  }

  /** No handler of the run drifts. */
  ghost predicate NeverDrifts(s: State, run: seq<Action>)
    decreases |run|
  {
    run == [] || (!Drifts(s, run[0]) && NeverDrifts(Step(s, run[0]), run[1..]))
  }

  lemma {:induction false} RunKeepsSync(s: State, run: seq<Action>)
    requires Inv(s) && InSync(s) && Legal(s, run) && NeverDrifts(s, run)
    ensures Inv(Run(s, run)) && InSync(Run(s, run))
    decreases |run|
  {
    if run != [] {
      HandlersKeepSyncExactly(s, run[0]);
      StepKeepsInv(s, run[0]);
      RunKeepsSync(Step(s, run[0]), run[1..]);
    }
  }

  /** Both drifts are reachable: a forced AddDevice that fails hides a device that is connected,
      and a second connect event under a new id leaves the first id announced for good. */
  lemma DriftsHappen(udid: string)
    ensures var failed := [NetworkConnected(1, udid), AddDevice(2, udid, true, false)];
            && Legal(START, failed)
            && Visible(Run(START, failed).devices, 1) && !Announced(Run(START, failed).events, 1)
    ensures var stale := [UsbConnected(1, udid), UsbConnected(2, udid)];
            && Legal(START, stale)
            && 1 !in Run(START, stale).devices && Announced(Run(START, stale).events, 1)
  {
    var failed := [NetworkConnected(1, udid), AddDevice(2, udid, true, false)];
    var n1 := Step(START, failed[0]);
    assert n1.devices == map[1 := Device(Network, udid)];
    assert n1.devices[1] == Device(Network, udid);
    var n2 := Step(n1, failed[1]);
    AnnouncedSnoc(n1.events, Detached(1), 1);
    TwoSteps(START, failed);

    var stale := [UsbConnected(1, udid), UsbConnected(2, udid)];
    var u1 := Step(START, stale[0]);
    assert u1.devices == map[1 := Device(Usb, udid)];
    var u2 := Step(u1, stale[1]);
    assert u1.events == [Attached(1)] && u2.events == u1.events + [Attached(2)];
    AnnouncedSnoc([], Attached(1), 1);
    AnnouncedSnoc(u1.events, Attached(2), 1);
    TwoSteps(START, stale);
  }

  lemma TwoSteps(s: State, run: seq<Action>)
    requires |run| == 2 && Allowed(s, run[0]) && Allowed(Step(s, run[0]), run[1])
    ensures Legal(s, run) && Run(s, run) == Step(Step(s, run[0]), run[1])
  {
    assert run[1..][1..] == [] && run[1..][0] == run[1];
    assert Run(Step(s, run[0]), run[1..]) == Run(Step(Step(s, run[0]), run[1]), run[1..][1..]);
  }
}
