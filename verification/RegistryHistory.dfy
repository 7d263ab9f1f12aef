// Which devices the registry holds and what it announces, told from the history of requests and
// hotplug events alone.

module RegistryHistory {
  import opened Common
  import opened Registry

  // ----- who is in the map -----

  /** The action ends an entry `d` under `id`: its disconnection, a USB connect of the same UDID under
      another id (for a USB entry), or a successful forced AddDevice of the same UDID (for a network
      entry). */
  predicate Ends(a: Action, id: nat, d: Device) {
    match a
    case UsbConnected(n, udid) => d == Device(Usb, udid) && n != id
    case UsbDisconnected(n) => n == id
    case NetworkConnected(_, _) => false
    case NetworkDisconnected(n) => n == id
    case AddDevice(n, udid, force, connects) => force && connects && d == Device(Network, udid) && n != id
  }

  /** The network entry a UDID has after a history: the first that connected or was added while there
      was none, until it is disconnected or replaced by a forced AddDevice that succeeds. */
  function NetworkOwner(history: seq<Action>, udid: string): Option<nat> {
    if history == [] then None
    else
      var before := NetworkOwner(history[..|history| - 1], udid);
      match history[|history| - 1]
      case UsbConnected(_, _) => before
      case UsbDisconnected(n) => if before == Some(n) then None else before
      case NetworkConnected(n, u) => if u == udid && before.None? then Some(n) else before
      case NetworkDisconnected(n) => if before == Some(n) then None else before
      case AddDevice(n, u, force, connects) =>
        if u == udid && connects && (force || before.None?) then Some(n) else before
  }

  /** The action, after the actions `before`, brings in `d` under `id`: a USB connect always, a network
      connect or AddDevice if its UDID has no network entry, and an AddDevice that connects also when
      forced. */
  predicate Accepted(before: seq<Action>, a: Action, id: nat, d: Device) {
    match a
    case UsbConnected(n, udid) => n == id && d == Device(Usb, udid)
    case UsbDisconnected(_) => false
    case NetworkConnected(n, udid) =>
      n == id && d == Device(Network, udid) && NetworkOwner(before, udid).None?
    case NetworkDisconnected(_) => false
    case AddDevice(n, udid, force, connects) =>
      n == id && d == Device(Network, udid) && connects && (force || NetworkOwner(before, udid).None?)
  }

  /** Some action brought `d` in under `id`, and none since has ended it. */
  ghost predicate Held(history: seq<Action>, id: nat, d: Device) {
    exists i: nat :: i < |history| && HeldSince(history, i, id, d)
  }

  ghost predicate HeldSince(history: seq<Action>, i: nat, id: nat, d: Device)
    requires i < |history|
  {
    && Accepted(history[..i], history[i], id, d)
    && forall j :: i < j < |history| ==> !Ends(history[j], id, d)
  }

  lemma HeldSnoc(history: seq<Action>, a: Action, id: nat, d: Device)
    ensures Held(history + [a], id, d) <==> Accepted(history, a, id, d) || (Held(history, id, d) && !Ends(a, id, d))
  {
    var all, n := history + [a], |history|;
    assert all[..n] == history && all[n] == a;
    if Accepted(history, a, id, d) {
      assert HeldSince(all, n, id, d);
    }
    forall i: nat | i < n ensures HeldSince(all, i, id, d) <==> HeldSince(history, i, id, d) && !Ends(a, id, d) {
      assert all[..i] == history[..i] && all[i] == history[i];
      if HeldSince(all, i, id, d) { assert !Ends(all[n], id, d); }
    }
    if Held(history, id, d) && !Ends(a, id, d) {
      var i: nat :| i < n && HeldSince(history, i, id, d);
      assert HeldSince(all, i, id, d);
    }
    if Held(all, id, d) {
      var i: nat :| i < n + 1 && HeldSince(all, i, id, d);
      if i == n { assert Accepted(history, a, id, d); } else { assert HeldSince(history, i, id, d); }
    }
  }

  // ----- the map is that -----

  ghost predicate MapIs(m: Devices, history: seq<Action>) {
    && (forall id: nat, d: Device :: Held(history, id, d) <==> id in m && m[id] == d)
    && (forall udid: string :: NetworkOwner(history, udid) == NetworkId(m, udid))
  }

  /** The same acceptance, read off the map. */
  ghost predicate AcceptedBy(m: Devices, a: Action, id: nat, d: Device) {
    match a
    case UsbConnected(n, udid) => n == id && d == Device(Usb, udid)
    case UsbDisconnected(_) => false
    case NetworkConnected(n, udid) => n == id && d == Device(Network, udid) && !HasNetwork(m, udid)
    case NetworkDisconnected(_) => false
    case AddDevice(n, udid, force, connects) =>
      n == id && d == Device(Network, udid) && connects && (force || !HasNetwork(m, udid))
  }

  /** With no duplicates an entry found is the entry there is. */
  lemma OwnerIs(m: Devices, udid: string, owner: Option<nat>)
    requires Dedup(m)
    requires owner.Some? ==> owner.value in m && m[owner.value] == Device(Network, udid)
    requires owner.None? ==> !HasNetwork(m, udid)
    ensures NetworkId(m, udid) == owner
  {
    if owner.Some? { UniqueNetwork(m, owner.value); }
  }

  lemma OwnerStep(history: seq<Action>, s: State, a: Action, udid: string)
    requires Inv(s) && Allowed(s, a) && NetworkOwner(history, udid) == NetworkId(s.devices, udid)
    ensures NetworkOwner(history + [a], udid) == NetworkId(Step(s, a).devices, udid)
  {
    assert (history + [a])[..|history|] == history;
    StepKeepsInv(s, a);
    var owner, m' := NetworkOwner(history + [a], udid), Step(s, a).devices;
    if owner.Some? {
      var net := Device(Network, udid);
      StepChangesMap(s, a, owner.value, net);
    } else {
      forall k: nat ensures !(k in m' && m'[k] == Device(Network, udid)) {
        StepChangesMap(s, a, k, Device(Network, udid));
        if k in s.devices && s.devices[k] == Device(Network, udid) { UniqueNetwork(s.devices, k); }
      }
    }
    OwnerIs(m', udid, owner);
  }

  lemma AddDeviceChangesMap(s: State, n: nat, udid: string, force: bool, connects: bool, id: nat, d: Device)
    requires Inv(s) && n !in s.used
    ensures var m' := OnAddDevice(s, n, udid, force, connects).devices;
            var a := AddDevice(n, udid, force, connects);
            (id in m' && m'[id] == d)
            <==> AcceptedBy(s.devices, a, id, d) || (id in s.devices && s.devices[id] == d && !Ends(a, id, d))
  {
    if id in s.devices && s.devices[id] == Device(Network, udid) { UniqueNetwork(s.devices, id); }
  }

  /** One handler changes the map exactly by what it accepts and what it ends. */
  lemma StepChangesMap(s: State, a: Action, id: nat, d: Device)
    requires Inv(s) && Allowed(s, a)
    ensures var m' := Step(s, a).devices;
            (id in m' && m'[id] == d)
            <==> AcceptedBy(s.devices, a, id, d) || (id in s.devices && s.devices[id] == d && !Ends(a, id, d))
  {
    if a.AddDevice? {
      AddDeviceChangesMap(s, a.id, a.udid, a.force, a.connects, id, d);
    }
  }

  lemma {:induction false} LegalFront(s: State, run: seq<Action>, a: Action)
    requires Legal(s, run + [a])
    ensures Legal(s, run) && Allowed(Run(s, run), a) && Run(s, run + [a]) == Step(Run(s, run), a)
    decreases |run|
  {
    var all := run + [a];
    if run == [] {
      assert all[1..] == [];
      assert Run(s, all) == Run(Step(s, a), []);
    } else {
      assert all[0] == run[0] && all[1..] == run[1..] + [a];
      LegalFront(Step(s, run[0]), run[1..], a);
    }
  }

  /** The registry's contents, after any legal history: an id is in the map with a device exactly when
      the history brought it in and has not ended it since; and the network entry of each UDID is the one
      the history says. */
  lemma {:induction false} MapFollowsHistory(history: seq<Action>)
    requires Legal(START, history)
    ensures MapIs(Run(START, history).devices, history)
  {
    if history != [] {
      var front, a := history[..|history| - 1], history[|history| - 1];
      assert history == front + [a];
      LegalFront(START, front, a);
      MapFollowsHistory(front);
      RunKeepsInv(START, front);
      forall id: nat, d: Device
        ensures Held(history, id, d) <==>
                  id in Run(START, history).devices && Run(START, history).devices[id] == d
      {
        HeldSnoc(front, a, id, d);
        StepChangesMap(Run(START, front), a, id, d);
      }
      forall udid: string ensures NetworkOwner(history, udid) == NetworkId(Run(START, history).devices, udid) {
        OwnerStep(front, Run(START, front), a, udid);
      }
    }
  }

  // ----- what is announced -----

  /** How often an event is among the news. */
  function Count(news: seq<DeviceEvent>, e: DeviceEvent): nat {
    if news == [] then 0 else Count(news[..|news| - 1], e) + if news[|news| - 1] == e then 1 else 0
  }

  function News(s: State, s': State): seq<DeviceEvent>
    requires s.events <= s'.events
  {
    s'.events[|s.events|..]
  }

  /** The id is replaced by a forced AddDevice. */
  ghost predicate ReplacedByForce(s: State, a: Action, id: nat) {
    a.AddDevice? && a.force && id in s.devices && s.devices[id] == Device(Network, a.udid)
  }

  /** The id is a USB entry that a connect of the same UDID under another id drops in silence. */
  ghost predicate DroppedAsStale(s: State, a: Action, id: nat) {
    a.UsbConnected? && id != a.id && id in s.devices && s.devices[id] == Device(Usb, a.udid)
  }

  /** The id is the network entry of the UDID of a USB device being connected. */
  ghost predicate Covered(s: State, a: Action, id: nat) {
    a.UsbConnected? && id in s.devices && s.devices[id] == Device(Network, a.udid)
  }

  /** Attached is sent for an id exactly when it becomes visible, or is a USB device connected (again);
      Detached exactly when it stops being visible other than as a stale entry, or is covered (again) by
      a USB device, or is taken out by a forced AddDevice; each at most once, and nothing else is sent. */
  ghost predicate NewsIsExact(s: State, a: Action, s': State, id: nat) {
    && s.events <= s'.events
    && Count(News(s, s'), Attached(id))
       == (if (Visible(s'.devices, id) && !Visible(s.devices, id)) || (a.UsbConnected? && id == a.id) then 1 else 0)
    && Count(News(s, s'), Detached(id))
       == (if (Visible(s.devices, id) && !Visible(s'.devices, id) && !DroppedAsStale(s, a, id))
              || Covered(s, a, id) || ReplacedByForce(s, a, id) then 1 else 0)
  }

  lemma CountPair(x: Option<nat>, detach: bool, last: DeviceEvent, e: DeviceEvent)
    ensures Count(Maybe(x, detach) + [last], e) == Count(Maybe(x, detach), e) + Count([last], e)
    ensures Count([last], e) == if last == e then 1 else 0
    ensures Count(Maybe(x, detach), e)
         == if x.Some? && e == (if detach then Detached(x.value) else Attached(x.value)) then 1 else 0
  {
    var m := Maybe(x, detach);
    assert (m + [last])[..|m|] == m;
    assert [last][..0] == [];
    if x.Some? { assert m[..0] == []; }
  }

  /** What a USB connect does to each id's visibility. */
  lemma UsbConnectedVisibility(s: State, n: nat, udid: string, id: nat)
    requires Inv(s) && Allowed(s, UsbConnected(n, udid))
    ensures var m, m' := s.devices, OnUsbConnected(s, n, udid).devices;
            && Visible(m', n)
            && (id != n && Visible(m', id) ==> Visible(m, id))
            && (id != n && Visible(m, id) && !Visible(m', id) ==>
                  m[id] == Device(Usb, udid) || m[id] == Device(Network, udid))
            && (id in m && m[id] == Device(Network, udid) ==> !Visible(m', id) && id != n)
  {
    var m' := OnUsbConnected(s, n, udid).devices;
    assert m'[n] == Device(Usb, udid);
    OthersKeepVisibility(s.devices, m', udid, n, id);
  }

  lemma UsbConnectedCounts(s: State, n: nat, udid: string, id: nat)
    requires Inv(s)
    ensures var s' := OnUsbConnected(s, n, udid);
            && s.events <= s'.events
            && Count(News(s, s'), Attached(id)) == (if id == n then 1 else 0)
            && Count(News(s, s'), Detached(id)) == (if Covered(s, UsbConnected(n, udid), id) then 1 else 0)
  {
    var s', hidden := OnUsbConnected(s, n, udid), NetworkId(s.devices, udid);
    assert s'.events == s.events + (Maybe(hidden, true) + [Attached(n)]);
    assert News(s, s') == Maybe(hidden, true) + [Attached(n)];
    CountPair(hidden, true, Attached(n), Attached(id));
    CountPair(hidden, true, Attached(n), Detached(id));
    if Covered(s, UsbConnected(n, udid), id) { UniqueNetwork(s.devices, id); }
  }

  lemma UsbConnectedNews(s: State, n: nat, udid: string, id: nat)
    requires Inv(s) && Allowed(s, UsbConnected(n, udid))
    ensures NewsIsExact(s, UsbConnected(n, udid), OnUsbConnected(s, n, udid), id)
  {
    UsbConnectedCounts(s, n, udid, id);
    UsbConnectedVisibility(s, n, udid, id);
  }

  lemma OneOrNone(e: DeviceEvent, x: DeviceEvent)
    ensures Count([e], x) == if e == x then 1 else 0
    ensures Count([], x) == 0
  {
    assert [e][..0] == [];
  }

  lemma UsbRemovedNews(s: State, n: nat, id: nat)
    requires Inv(s) && n in s.devices && s.devices[n].kind.Usb?
    ensures NewsIsExact(s, UsbDisconnected(n), OnRemoved(s, n), id)
  {
    var s', rest := OnRemoved(s, n), s.devices - {n};
    var next := NetworkId(rest, s.devices[n].udid);
    assert News(s, s') == Maybe(next, false) + [Detached(n)];
    CountPair(next, false, Detached(n), Attached(id));
    CountPair(next, false, Detached(n), Detached(id));
    if id in s.devices && id != n { RemovalVisibility(s.devices, n, id); }
    if id in rest && rest[id] == Device(Network, s.devices[n].udid) {
      UniqueNetwork(rest, id);
      assert !Visible(s.devices, id);
    }
  }

  lemma NetworkRemovedNews(s: State, n: nat, a: Action, id: nat)
    requires Inv(s) && n in s.devices && s.devices[n].kind.Network?
    requires a == UsbDisconnected(n) || a == NetworkDisconnected(n)
    ensures NewsIsExact(s, a, OnRemoved(s, n), id)
  {
    var s' := OnRemoved(s, n);
    NetworkRemovalIsSilentIffShadowed(s.devices, n);
    assert News(s, s') == if Shadowed(s.devices, n) then [] else [Detached(n)];
    OneOrNone(Detached(n), Attached(id));
    OneOrNone(Detached(n), Detached(id));
    if id in s.devices && id != n { RemovalVisibility(s.devices, n, id); }
  }

  lemma NothingNews(s: State, a: Action, id: nat)
    requires !a.UsbConnected? && !ReplacedByForce(s, a, id)
    ensures NewsIsExact(s, a, s, id)
  {
  }

  lemma InsertedNews(s: State, n: nat, udid: string, a: Action, id: nat)
    requires n !in s.devices && (a == NetworkConnected(n, udid) || (a.AddDevice? && !ReplacedByForce(s, a, id)))
    ensures NewsIsExact(s, a, InsertNetwork(s, n, udid), id)
  {
    var s' := InsertNetwork(s, n, udid);
    assert News(s, s') == if HasUsb(s.devices, udid) then [] else [Attached(n)];
    OneOrNone(Attached(n), Attached(id));
    OneOrNone(Attached(n), Detached(id));
    InsertionVisibility(s.devices, n, udid, id);
  }

  /** A forced replacement tells of the old entry, hidden or not, and of the new one unless hidden. */
  lemma ReplacementNews(s: State, prev: nat, n: nat, udid: string, id: nat)
    requires Inv(s) && NetworkId(s.devices, udid) == Some(prev) && n !in s.used
    ensures NewsIsExact(s, AddDevice(n, udid, true, true), OnAddDevice(s, n, udid, true, true), id)
  {
    var s' := OnAddDevice(s, n, udid, true, true);
    var rest := s.devices - {prev};
    var shown := if HasUsb(rest, udid) then [] else [Attached(n)];
    assert s'.events == s.events + ([Detached(prev)] + shown);
    assert News(s, s') == [Detached(prev)] + shown;
    CountTwo(Detached(prev), shown, Attached(id));
    CountTwo(Detached(prev), shown, Detached(id));
    OneOrNone(Attached(n), Attached(id));
    OneOrNone(Attached(n), Detached(id));
    if id in s.devices && id != prev { RemovalVisibility(s.devices, prev, id); }
    InsertionVisibility(rest, n, udid, id);
    if id in s.devices && s.devices[id] == Device(Network, udid) { UniqueNetwork(s.devices, id); }
  }

  lemma CountTwo(first: DeviceEvent, shown: seq<DeviceEvent>, e: DeviceEvent)
    requires |shown| <= 1
    ensures Count([first] + shown, e) == (if first == e then 1 else 0) + Count(shown, e)
  {
    OneOrNone(first, e);
    if shown == [] {
      assert [first] + shown == [first];
    } else {
      assert ([first] + shown)[..1] == [first] && shown[..0] == [];
    }
  }

  /** A failed one tells of the old entry only, which is put back. */
  lemma FailedReplacementNews(s: State, prev: nat, n: nat, udid: string, id: nat)
    requires Inv(s) && NetworkId(s.devices, udid) == Some(prev)
    ensures NewsIsExact(s, AddDevice(n, udid, true, false), OnAddDevice(s, n, udid, true, false), id)
  {
    var s' := OnAddDevice(s, n, udid, true, false);
    assert s'.devices == s.devices && News(s, s') == [Detached(prev)];
    OneOrNone(Detached(prev), Attached(id));
    OneOrNone(Detached(prev), Detached(id));
    if id in s.devices && s.devices[id] == Device(Network, udid) { UniqueNetwork(s.devices, id); }
  }

  /** Every handler sends exactly the events its change of the map calls for. */
  lemma HandlersTellTheChange(s: State, a: Action, id: nat)
    requires Inv(s) && Allowed(s, a)
    ensures NewsIsExact(s, a, Step(s, a), id)
  {
    match a
    case UsbConnected(n, udid) => UsbConnectedNews(s, n, udid, id);
    case UsbDisconnected(n) =>
      if n !in s.devices {
        NothingNews(s, a, id);
      } else if s.devices[n].kind.Usb? {
        UsbRemovedNews(s, n, id);
      } else {
        NetworkRemovedNews(s, n, a, id);
      }
    case NetworkConnected(n, udid) =>
      if HasNetwork(s.devices, udid) { NothingNews(s, a, id); } else { InsertedNews(s, n, udid, a, id); }
    case NetworkDisconnected(n) =>
      NetworkDisconnectedIsRemoved(s, n);
      if n in s.devices { NetworkRemovedNews(s, n, a, id); } else { NothingNews(s, a, id); }
    case AddDevice(n, udid, force, connects) => AddDeviceNews(s, n, udid, force, connects, id);
  }

  lemma AddDeviceNews(s: State, n: nat, udid: string, force: bool, connects: bool, id: nat)
    requires Inv(s) && n !in s.used
    ensures NewsIsExact(s, AddDevice(n, udid, force, connects), OnAddDevice(s, n, udid, force, connects), id)
  {
    var a := AddDevice(n, udid, force, connects);
    match NetworkId(s.devices, udid)
    case None =>
      if connects { InsertedNews(s, n, udid, a, id); } else { NothingNews(s, a, id); }
    case Some(prev) =>
      if !force {
        NothingNews(s, a, id);
      } else if connects {
        ReplacementNews(s, prev, n, udid, id);
      } else {
        FailedReplacementNews(s, prev, n, udid, id);
      }
  }

  /** The order of the two events some handlers send: a network device is said to be gone before the
      device that takes its place is announced, and a removed USB device is said to be gone last. */
  lemma NewsOrder(s: State, a: Action)
    requires Inv(s) && Allowed(s, a)
    ensures var s' := Step(s, a);
            && s.events <= s'.events
            && (a.UsbConnected? ==> News(s, s') != [] && News(s, s')[|News(s, s')| - 1] == Attached(a.id))
            && (a.UsbDisconnected? && Visible(s.devices, a.id) ==>
                  News(s, s') != [] && News(s, s')[|News(s, s')| - 1] == Detached(a.id))
            && (a.AddDevice? && a.force && HasNetwork(s.devices, a.udid) ==>
                  News(s, s') != [] && News(s, s')[0] == Detached(NetworkId(s.devices, a.udid).value))
  {
    if a.UsbDisconnected? && a.id in s.devices && s.devices[a.id].kind.Network? {
      NetworkRemovalIsSilentIffShadowed(s.devices, a.id);
    }
  }

  // ----- a network device under its USB twin -----

  /** A network device that connects while a USB device has its UDID is taken in silently, and is
      visible and announced as soon as the USB device is removed. */
  lemma HiddenDeviceComesForward(history: seq<Action>, usb: nat, net: nat, udid: string)
    requires Legal(START, history)
    requires var s := Run(START, history);
             usb in s.devices && s.devices[usb] == Device(Usb, udid) && !HasNetwork(s.devices, udid) && net !in s.used
    ensures var s := Run(START, history);
            var s1 := Step(s, NetworkConnected(net, udid));
            var s2 := Step(s1, UsbDisconnected(usb));
            && s1.events == s.events && !Visible(s1.devices, net)
            && Visible(s2.devices, net) && Announced(s2.events, net)
  {
    var s := Run(START, history);
    RunKeepsInv(START, history);
    var s1 := Step(s, NetworkConnected(net, udid));
    var s2 := Step(s1, UsbDisconnected(usb));
    StepKeepsInv(s, NetworkConnected(net, udid));
    StepKeepsInv(s1, UsbDisconnected(usb));
    assert s1.devices == s.devices[net := Device(Network, udid)];
    assert s1.devices[usb] == Device(Usb, udid);
    RemovalVisibility(s1.devices, usb, net);
    assert net !in s2.lost;
  }
}
